/**
 * The restaurant room of src/rooms/Room3Restaurant.jsx: three sub-puzzles
 * unlock groups of letter tiles, the player places tiles into 14 answer slots,
 * and the slotted letters, read in slot order, are checked with `validate(3, ·)`.
 */
module Restaurant {
  import opened Wrappers
  import Base64
  import Solutions

  /** A tile; its id `tile-<letter>-<index>` is the pair of its letter and its index. */
  datatype Tile = Tile(letter: char, inSlot: Option<nat>)

  datatype TileId = TileId(letter: char, index: nat)

  /** `unlockedGroups`. */
  datatype Groups = Groups(receipt: bool, wine: bool, menu: bool)

  const ReceiptLetters: seq<char> := ['F', 'E', 'B', 'R', 'U']
  const WineLetters: seq<char> := ['A', 'R', 'Y', 'E', 'I']
  const MenuLetters: seq<char> := ['G', 'H', 'T', 'H']
  const DecoyLetters: seq<char> := ['O', 'C', 'N']
  const SlotCount := 14

  predicate AllUnlocked(g: Groups) {
    g.receipt && g.wine && g.menu
  }

  /**
   * The letters on the table: unlocked groups in receipt, wine, menu order,
   * then the decoys once all are unlocked. With every group unlocked the
   * table holds a letter for each of the fourteen slots and the three decoys;
   * before that it holds too few letters to fill the slots.
   */
  function TableLetters(g: Groups): (r: seq<char>)
    ensures AllUnlocked(g) ==> |r| == SlotCount + |DecoyLetters|
    ensures !AllUnlocked(g) ==> |r| < SlotCount
    ensures !g.receipt && !g.wine && !g.menu ==> r == []
  {
    (if g.receipt then ReceiptLetters else [])
    + (if g.wine then WineLetters else [])
    + (if g.menu then MenuLetters else [])
    + (if AllUnlocked(g) then DecoyLetters else [])
  }

  /** With every group unlocked the table holds FEBRUARYEIGHTH and the decoys O, C, N. */
  lemma AllUnlockedLetters(g: Groups)
    requires AllUnlocked(g)
    ensures TableLetters(g) == "FEBRUARYEIGHTH" + "OCN"
  {
  }

  /** The tiles the effect on `unlockedGroups` builds: one per table letter, none in a slot. */
  function BuildTiles(g: Groups): (r: seq<Tile>)
    ensures |r| == |TableLetters(g)|
    ensures forall i :: 0 <= i < |r| ==> r[i].letter == TableLetters(g)[i] && r[i].inSlot.None?
  {
    var letters := TableLetters(g);
    seq(|letters|, i requires 0 <= i < |letters| => Tile(letters[i], None))
  }

  /** The letters of a list of tiles, in order. */
  function LettersOf(tiles: seq<Tile>): (r: seq<char>)
    ensures |r| == |tiles| && forall i :: 0 <= i < |tiles| ==> r[i] == tiles[i].letter
  {
    if tiles == [] then [] else [tiles[0].letter] + LettersOf(tiles[1..])
  }

  /** No two tiles share a slot. */
  predicate SlotsDistinct(tiles: seq<Tile>) {
    forall i, j :: 0 <= i < |tiles| && 0 <= j < |tiles| && i != j && tiles[i].inSlot.Some? ==>
      tiles[i].inSlot != tiles[j].inSlot
  }

  /** `tiles.find(t => t.id === id)`: ids carry their index, so at most one tile matches. */
  function Find(tiles: seq<Tile>, id: TileId): (r: Option<nat>)
    ensures r.Some? ==> r.value < |tiles| && r.value == id.index && tiles[r.value].letter == id.letter
    ensures r.None? ==> id.index >= |tiles| || tiles[id.index].letter != id.letter
  {
    if id.index < |tiles| && tiles[id.index].letter == id.letter then Some(id.index) else None
  }

  /** `tiles.find(t => t.inSlot === slot)`: the first tile in that slot. */
  function FindInSlot(tiles: seq<Tile>, slot: nat): (r: Option<nat>)
    ensures r.Some? ==> r.value < |tiles| && tiles[r.value].inSlot == Some(slot)
    ensures r.None? ==> forall i :: 0 <= i < |tiles| ==> tiles[i].inSlot != Some(slot)
  {
    if tiles == [] then None
    else if tiles[0].inSlot == Some(slot) then Some(0)
    else match FindInSlot(tiles[1..], slot)
      case None => None
      case Some(k) => Some(k + 1)
  }

  /** Exchange the slots of tiles `i` and `j`; everything else stays. */
  function SwapSlots(tiles: seq<Tile>, i: nat, j: nat): (r: seq<Tile>)
    requires i < |tiles| && j < |tiles|
    ensures |r| == |tiles| && LettersOf(r) == LettersOf(tiles)
    ensures r[i].inSlot == tiles[j].inSlot && r[j].inSlot == tiles[i].inSlot
    ensures forall k :: 0 <= k < |tiles| && k != i && k != j ==> r[k] == tiles[k]
  {
    tiles[i := tiles[i].(inSlot := tiles[j].inSlot)][j := tiles[j].(inSlot := tiles[i].inSlot)]
  }

  lemma SwapKeepsDistinct(tiles: seq<Tile>, i: nat, j: nat)
    requires i < |tiles| && j < |tiles|
    ensures SlotsDistinct(tiles) ==> SlotsDistinct(SwapSlots(tiles, i, j))
  {
    var r := SwapSlots(tiles, i, j);
    if !SlotsDistinct(tiles) {
      return;
    }
    forall a, b | 0 <= a < |r| && 0 <= b < |r| && a != b && r[a].inSlot.Some?
      ensures r[a].inSlot != r[b].inSlot
    {
      var a' := if a == i then j else if a == j then i else a;
      var b' := if b == i then j else if b == j then i else b;
      assert r[a].inSlot == tiles[a'].inSlot && r[b].inSlot == tiles[b'].inSlot;
    }
  }

  /** Swapping the same two tiles twice restores the table. */
  lemma SwapTwiceRestores(tiles: seq<Tile>, i: nat, j: nat)
    requires i < |tiles| && j < |tiles|
    ensures SwapSlots(SwapSlots(tiles, i, j), i, j) == tiles
  {
    var r := SwapSlots(SwapSlots(tiles, i, j), i, j);
    assert forall k :: 0 <= k < |tiles| ==> r[k] == tiles[k];
  }

  /**
   * `handleTileClick(id)`: with nothing selected the tile is selected; a click
   * on the selected tile deselects it; a click on another tile swaps the two
   * tiles' slots (when both exist) and clears the selection.
   */
  function TileClickUpdate(tiles: seq<Tile>, selected: Option<TileId>, id: TileId): (r: (seq<Tile>, Option<TileId>))
    ensures selected.None? ==> r == (tiles, Some(id))
    ensures selected == Some(id) ==> r == (tiles, None)
    ensures selected.Some? && selected != Some(id) ==> r.1.None?
    ensures selected.Some? && selected != Some(id) && Find(tiles, selected.value).Some? && Find(tiles, id).Some? ==>
      r.0 == SwapSlots(tiles, selected.value.index, id.index)
    ensures |r.0| == |tiles| && LettersOf(r.0) == LettersOf(tiles)
  {
    if selected.None? then (tiles, Some(id))
    else if selected.value == id then (tiles, None)
    else
      var a := Find(tiles, selected.value);
      var b := Find(tiles, id);
      if a.Some? && b.Some? then (SwapSlots(tiles, a.value, b.value), None)
      else (tiles, None)
  }

  /** A tile click never puts two tiles into one slot. */
  lemma TileClickKeepsDistinct(tiles: seq<Tile>, selected: Option<TileId>, id: TileId)
    requires SlotsDistinct(tiles)
    ensures SlotsDistinct(TileClickUpdate(tiles, selected, id).0)
  {
    if selected.Some? && selected.value != id {
      var a := Find(tiles, selected.value);
      var b := Find(tiles, id);
      if a.Some? && b.Some? {
        SwapKeepsDistinct(tiles, a.value, b.value);
      }
    }
  }

  /** Put tile `i` into the empty `slot`. */
  lemma PlaceKeepsDistinct(tiles: seq<Tile>, i: nat, slot: nat)
    requires i < |tiles|
    requires forall k :: 0 <= k < |tiles| ==> tiles[k].inSlot != Some(slot)
    ensures SlotsDistinct(tiles) ==> SlotsDistinct(tiles[i := tiles[i].(inSlot := Some(slot))])
  {
  }

  /** Tile `s` takes `slot`; tile `o`, when another tile, takes the old slot of `s`. */
  function MoveIntoSlot(tiles: seq<Tile>, s: nat, o: Option<nat>, slot: nat): (r: seq<Tile>)
    requires s < |tiles| && (o.Some? ==> o.value < |tiles|)
    ensures |r| == |tiles|
  {
    var placed := tiles[s := tiles[s].(inSlot := Some(slot))];
    if o.Some? then placed[o.value := tiles[o.value].(inSlot := tiles[s].inSlot)] else placed
  }

  /**
   * `handleSlotClick(slot)`: nothing happens without a selection. The selected
   * tile takes the slot; a tile already there takes the selected tile's old
   * slot (possibly none). The selection clears.
   */
  function SlotClickUpdate(tiles: seq<Tile>, selected: Option<TileId>, slot: nat): (r: (seq<Tile>, Option<TileId>))
    ensures |r.0| == |tiles|
    ensures selected.None? ==> r == (tiles, selected)
    ensures selected.Some? ==> r.1.None?
    ensures selected.Some? && Find(tiles, selected.value).None? ==> r.0 == tiles
  {
    if selected.None? then (tiles, selected)
    else
      var s := Find(tiles, selected.value);
      if s.Some? then (MoveIntoSlot(tiles, s.value, FindInSlot(tiles, slot), slot), None)
      else (tiles, None)
  }

  /**
   * With the selected tile on the table, it ends in the clicked slot, the tile
   * that was there (when another) takes its old slot, every other tile stays,
   * and no letter changes.
   */
  lemma SlotClickMoves(tiles: seq<Tile>, selected: Option<TileId>, slot: nat)
    requires selected.Some? && Find(tiles, selected.value).Some?
    ensures var r := SlotClickUpdate(tiles, selected, slot).0;
      var s := selected.value.index;
      var occupant := FindInSlot(tiles, slot);
      r[s].inSlot == Some(slot)
      && (occupant.Some? && occupant.value != s ==> r[occupant.value].inSlot == tiles[s].inSlot)
      && (forall k :: 0 <= k < |tiles| && k != s && occupant != Some(k) ==> r[k] == tiles[k])
      && LettersOf(r) == LettersOf(tiles)
  {
    var r := SlotClickUpdate(tiles, selected, slot).0;
    assert forall k :: 0 <= k < |tiles| ==> r[k].letter == tiles[k].letter;
  }

  /** A slot click never puts two tiles into one slot. */
  lemma SlotClickKeepsDistinct(tiles: seq<Tile>, selected: Option<TileId>, slot: nat)
    requires SlotsDistinct(tiles)
    ensures SlotsDistinct(SlotClickUpdate(tiles, selected, slot).0)
  {
    if selected.Some? {
      var s := Find(tiles, selected.value);
      var occupant := FindInSlot(tiles, slot);
      if s.Some? {
        if occupant.Some? {
          SwapKeepsDistinct(tiles, s.value, occupant.value);
          assert MoveIntoSlot(tiles, s.value, occupant, slot) == SwapSlots(tiles, s.value, occupant.value);
        } else {
          PlaceKeepsDistinct(tiles, s.value, slot);
        }
      }
    }
  }

  /** The tiles that sit in a slot, in list order. */
  function Slotted(tiles: seq<Tile>): (r: seq<Tile>)
    ensures AllPlaced(r)
  {
    if tiles == [] then []
    else (if tiles[0].inSlot.Some? then [tiles[0]] else []) + Slotted(tiles[1..])
  }

  /** `filter` only drops tiles. */
  lemma {:induction false} SlottedSubset(tiles: seq<Tile>)
    ensures multiset(Slotted(tiles)) <= multiset(tiles)
  {
    if tiles != [] {
      SlottedSubset(tiles[1..]);
      assert tiles == [tiles[0]] + tiles[1..];
    }
  }

  /** A list whose tiles all sit in slots is its own slotted part. */
  lemma {:induction false} SlottedAllPlaced(tiles: seq<Tile>)
    requires forall i :: 0 <= i < |tiles| ==> tiles[i].inSlot.Some?
    ensures Slotted(tiles) == tiles
  {
    if tiles != [] {
      SlottedAllPlaced(tiles[1..]);
    }
  }

  /** Tiles outside every slot contribute nothing. */
  lemma {:induction false} SlottedNonePlaced(tiles: seq<Tile>)
    requires forall i :: 0 <= i < |tiles| ==> tiles[i].inSlot.None?
    ensures Slotted(tiles) == []
  {
    if tiles != [] {
      SlottedNonePlaced(tiles[1..]);
    }
  }

  lemma {:induction false} SlottedConcat(u: seq<Tile>, w: seq<Tile>)
    ensures Slotted(u + w) == Slotted(u) + Slotted(w)
  {
    if u != [] {
      assert (u + w)[0] == u[0];
      assert (u + w)[1..] == u[1..] + w;
      SlottedConcat(u[1..], w);
      var head := if u[0].inSlot.Some? then [u[0]] else [];
      assert Slotted(u + w) == head + Slotted(u[1..] + w);
      assert Slotted(u) == head + Slotted(u[1..]);
    } else {
      assert u + w == w;
    }
  }

  predicate AllPlaced(s: seq<Tile>) {
    forall i :: 0 <= i < |s| ==> s[i].inSlot.Some?
  }

  predicate SortedBySlot(s: seq<Tile>)
    requires AllPlaced(s)
  {
    forall i, j :: 0 <= i < j < |s| ==> s[i].inSlot.value <= s[j].inSlot.value
  }

  /** Insert a slotted tile into a list sorted by slot, before the first tile in a later slot. */
  function InsertBySlot(t: Tile, s: seq<Tile>): (r: seq<Tile>)
    requires t.inSlot.Some? && AllPlaced(s)
    ensures |r| == |s| + 1 && AllPlaced(r)
  {
    if s == [] || t.inSlot.value <= s[0].inSlot.value then
      [t] + s
    else
      [s[0]] + InsertBySlot(t, s[1..])
  }

  lemma {:induction false} InsertIsPermutation(t: Tile, s: seq<Tile>)
    requires t.inSlot.Some? && AllPlaced(s)
    ensures multiset(InsertBySlot(t, s)) == multiset(s) + multiset{t}
  {
    if s != [] && t.inSlot.value > s[0].inSlot.value {
      InsertIsPermutation(t, s[1..]);
      assert s == [s[0]] + s[1..];
    }
  }

  /** Inserting keeps a sorted list sorted. */
  lemma {:induction false} InsertKeepsSorted(t: Tile, s: seq<Tile>)
    requires t.inSlot.Some? && AllPlaced(s) && SortedBySlot(s)
    ensures SortedBySlot(InsertBySlot(t, s))
  {
    if s != [] && t.inSlot.value > s[0].inSlot.value {
      var rest := InsertBySlot(t, s[1..]);
      InsertKeepsSorted(t, s[1..]);
      InsertIsPermutation(t, s[1..]);
      forall k | 0 <= k < |rest| ensures s[0].inSlot.value <= rest[k].inSlot.value {
        assert rest[k] in multiset(rest);
        assert rest[k] == t || rest[k] in multiset(s[1..]);
        if rest[k] != t {
          assert rest[k] in s[1..];
        }
      }
    }
  }

  /** The source's `.sort((a, b) => a.inSlot - b.inSlot)`, as an insertion sort. */
  function SortBySlot(s: seq<Tile>): (r: seq<Tile>)
    requires AllPlaced(s)
    ensures |r| == |s| && AllPlaced(r)
  {
    if s == [] then []
    else InsertBySlot(s[0], SortBySlot(s[1..]))
  }

  /** The sort only reorders. */
  lemma {:induction false} SortIsPermutation(s: seq<Tile>)
    requires AllPlaced(s)
    ensures multiset(SortBySlot(s)) == multiset(s)
  {
    if s != [] {
      SortIsPermutation(s[1..]);
      InsertIsPermutation(s[0], SortBySlot(s[1..]));
      assert s == [s[0]] + s[1..];
    }
  }

  /** The answer's tiles are tiles of the table. */
  lemma AnswerTilesFromTable(tiles: seq<Tile>)
    ensures multiset(SortBySlot(Slotted(tiles))) <= multiset(tiles)
  {
    SlottedSubset(tiles);
    SortIsPermutation(Slotted(tiles));
  }

  /** The sort orders by slot. */
  lemma {:induction false} SortIsSorted(s: seq<Tile>)
    requires AllPlaced(s)
    ensures SortedBySlot(SortBySlot(s))
  {
    if s != [] {
      SortIsSorted(s[1..]);
      InsertKeepsSorted(s[0], SortBySlot(s[1..]));
    }
  }

  /**
   * `handleSubmit`'s answer: the letters of the slotted tiles in slot order.
   * It is never longer than the table and holds each letter at most as often
   * as the table does.
   */
  function Answer(tiles: seq<Tile>): (r: string)
    ensures |r| <= |tiles|
    ensures forall c :: multiset(r)[c] <= multiset(LettersOf(tiles))[c]
  {
    SlottedLetters(tiles);
    LettersOf(SortBySlot(Slotted(tiles)))
  }

  /** The letters of tiles drawn from a list are letters of that list. */
  lemma TileLetterIn(t: Tile, tiles: seq<Tile>)
    requires t in multiset(tiles)
    ensures t.letter in LettersOf(tiles)
  {
    assert t in tiles;
    var i :| 0 <= i < |tiles| && tiles[i] == t;
    assert LettersOf(tiles)[i] == t.letter;
  }

  /** Every answer letter lies on the table. */
  lemma AnswerLettersOnTable(tiles: seq<Tile>)
    ensures forall c :: c in Answer(tiles) ==> c in LettersOf(tiles)
  {
    var sorted := SortBySlot(Slotted(tiles));
    AnswerTilesFromTable(tiles);
    forall c | c in Answer(tiles) ensures c in LettersOf(tiles) {
      var i :| 0 <= i < |sorted| && LettersOf(sorted)[i] == c;
      assert sorted[i] in multiset(sorted);
      TileLetterIn(sorted[i], tiles);
    }
  }

  /** The number of tiles in a list carrying letter `c`. */
  function CountLetter(tiles: seq<Tile>, c: char): (n: nat)
    ensures n == multiset(LettersOf(tiles))[c]
  {
    if tiles == [] then 0
    else
      assert LettersOf(tiles) == [tiles[0].letter] + LettersOf(tiles[1..]);
      (if tiles[0].letter == c then 1 else 0) + CountLetter(tiles[1..], c)
  }

  /** Counting a letter sees only the multiset of tiles. */
  lemma {:induction false} CountLetterMultiset(u: seq<Tile>, w: seq<Tile>, c: char)
    requires multiset(u) <= multiset(w)
    ensures CountLetter(u, c) <= CountLetter(w, c)
    decreases |w|
  {
    if u != [] {
      var t := u[0];
      assert t in multiset(w);
      var i :| 0 <= i < |w| && w[i] == t;
      var w' := w[..i] + w[i + 1..];
      assert w == w[..i] + [t] + w[i + 1..];
      assert u == [t] + u[1..];
      assert multiset(w') == multiset(w) - multiset{t};
      assert multiset(u[1..]) <= multiset(w');
      CountLetterMultiset(u[1..], w', c);
      CountLetterSplit(w[..i], t, w[i + 1..], c);
    }
  }

  lemma CountLetterSplit(u: seq<Tile>, t: Tile, w: seq<Tile>, c: char)
    ensures CountLetter(u + [t] + w, c) == CountLetter(u + w, c) + (if t.letter == c then 1 else 0)
  {
    LettersOfConcat(u + [t], w);
    LettersOfConcat(u, [t]);
    LettersOfConcat(u, w);
  }

  lemma LettersOfConcat(u: seq<Tile>, w: seq<Tile>)
    ensures LettersOf(u + w) == LettersOf(u) + LettersOf(w)
  {
    var l := LettersOf(u + w);
    assert forall i :: 0 <= i < |u| ==> l[i] == LettersOf(u)[i];
    assert forall i :: |u| <= i < |l| ==> l[i] == LettersOf(w)[i - |u|];
  }

  /** The sorted slotted tiles are no more than the table's, letter by letter. */
  lemma SlottedLetters(tiles: seq<Tile>)
    ensures |SortBySlot(Slotted(tiles))| <= |tiles|
    ensures forall c :: multiset(LettersOf(SortBySlot(Slotted(tiles))))[c] <= multiset(LettersOf(tiles))[c]
  {
    var sorted := SortBySlot(Slotted(tiles));
    AnswerTilesFromTable(tiles);
    assert |multiset(sorted)| <= |multiset(tiles)|;
    forall c ensures multiset(LettersOf(sorted))[c] <= multiset(LettersOf(tiles))[c] {
      CountLetterMultiset(sorted, tiles, c);
    }
  }

  /** The table holds only upper-case ASCII letters and at most one O. */
  lemma TableFacts(g: Groups)
    ensures IsUpper(TableLetters(g))
    ensures multiset(TableLetters(g))['O'] <= 1
  {
    var r := if g.receipt then ReceiptLetters else [];
    var w := if g.wine then WineLetters else [];
    var m := if g.menu then MenuLetters else [];
    GroupFacts();
    PartsFacts(r, w, m, AllUnlocked(g));
  }

  /** Groups without an O, followed by the decoys or not, hold at most one O. */
  lemma PartsFacts(r: seq<char>, w: seq<char>, m: seq<char>, decoys: bool)
    requires UpperNoO(r) && UpperNoO(w) && UpperNoO(m)
    ensures var t := r + w + m + (if decoys then DecoyLetters else []);
      IsUpper(t) && multiset(t)['O'] <= 1
  {
    UpperNoOConcat(r, w);
    UpperNoOConcat(r + w, m);
    var rwm := r + w + m;
    assert 'O' !in rwm;
    if decoys {
      DecoyFacts(rwm);
    } else {
      assert rwm + [] == rwm;
    }
  }

  /** Appending the decoys to letters without an O adds exactly one O. */
  lemma DecoyFacts(rwm: seq<char>)
    requires UpperNoO(rwm)
    ensures IsUpper(rwm + DecoyLetters) && multiset(rwm + DecoyLetters)['O'] == 1
  {
    assert 'O' !in rwm;
    assert DecoyLetters == ['O'] + ['C', 'N'];
    assert multiset(DecoyLetters)['O'] == 1;
    var t := rwm + DecoyLetters;
    assert forall i :: |rwm| <= i < |t| ==> t[i] == DecoyLetters[i - |rwm|];
  }

  predicate IsUpper(s: seq<char>) {
    forall i :: 0 <= i < |s| ==> 'A' <= s[i] <= 'Z'
  }

  /** Upper-case ASCII letters other than O. */
  predicate UpperNoO(s: seq<char>) {
    forall i :: 0 <= i < |s| ==> 'A' <= s[i] <= 'Z' && s[i] != 'O'
  }

  lemma GroupFacts()
    ensures UpperNoO(ReceiptLetters) && UpperNoO(WineLetters) && UpperNoO(MenuLetters)
    ensures UpperNoO([]) && IsUpper(DecoyLetters)
  {
  }

  lemma UpperNoOConcat(u: seq<char>, w: seq<char>)
    requires UpperNoO(u) && UpperNoO(w)
    ensures UpperNoO(u + w)
  {
    assert forall i :: |u| <= i < |u + w| ==> (u + w)[i] == w[i - |u|];
  }

  /** Every answer is upper-case ASCII, so `btoa` accepts it, and it holds no 'o' and at most one 'O'. */
  lemma AnswerIsLatin1(tiles: seq<Tile>, g: Groups)
    requires LettersOf(tiles) == TableLetters(g)
    ensures Base64.IsLatin1(Answer(tiles))
    ensures multiset(Answer(tiles))['O'] <= 1 && multiset(Answer(tiles))['o'] == 0
  {
    var table := TableLetters(g);
    TableFacts(g);
    AnswerLettersOnTable(tiles);
    UpperHasNoLowerO(table);
    var a := Answer(tiles);
    forall i | 0 <= i < |a| ensures a[i] as int < 256 {
      assert a[i] in a;
      UpperMember(table, a[i]);
    }
  }

  lemma UpperHasNoLowerO(s: seq<char>)
    requires IsUpper(s)
    ensures 'o' !in s
  {
  }

  lemma UpperMember(s: seq<char>, c: char)
    requires IsUpper(s) && c in s
    ensures 'A' <= c <= 'Z'
  {
  }

  /**
   * As written, room 3 can never be solved: the stored answer `octoberfifth`
   * needs two O tiles (and two T and two F), and the table never holds more
   * than one O, whatever the arrangement.
   */
  lemma NoArrangementAccepted(tiles: seq<Tile>, g: Groups)
    requires LettersOf(tiles) == TableLetters(g)
    ensures Base64.IsLatin1(Answer(tiles))
    ensures !Solutions.Validate(3, Answer(tiles))
  {
    AnswerIsLatin1(tiles, g);
    Solutions.Room3NeedsTwoOs(Answer(tiles));
  }

  /** The letters the hint spells out: the three groups in order, FEBRU ARYEI GHTH. */
  const Intended: seq<char> := ReceiptLetters + WineLetters + MenuLetters

  /** Tiles holding the intended letters in slots 0, 1, ... and the decoys outside every slot. */
  predicate IsIntendedArrangement(tiles: seq<Tile>) {
    LettersOf(tiles) == Intended + DecoyLetters
    && forall i :: 0 <= i < |tiles| ==> tiles[i].inSlot == if i < |Intended| then Some(i) else None
  }

  /** The arrangement the hint describes, built from the full table. */
  function IntendedArrangement(): (r: seq<Tile>)
    ensures LettersOf(r) == TableLetters(Groups(true, true, true))
    ensures IsIntendedArrangement(r)
  {
    var letters := TableLetters(Groups(true, true, true));
    assert letters == Intended + DecoyLetters && |Intended| == SlotCount;
    seq(|letters|, i requires 0 <= i < |letters| => Tile(letters[i], if i < SlotCount then Some(i) else None))
  }

  /** No two tiles of the intended arrangement share a slot. */
  lemma IntendedSlotsDistinct(tiles: seq<Tile>)
    requires IsIntendedArrangement(tiles)
    ensures SlotsDistinct(tiles)
  {
  }

  /** Tiles 0 to n-1 in slots 0 to n-1 and the rest outside every slot read as the first n letters. */
  lemma PrefixInSlotsAnswer(tiles: seq<Tile>, n: nat)
    requires n <= |tiles|
    requires forall i :: 0 <= i < |tiles| ==> tiles[i].inSlot == if i < n then Some(i) else None
    ensures Answer(tiles) == LettersOf(tiles)[..n]
  {
    var placed := tiles[..n];
    SlottedPrefix(tiles, n);
    ConsecutiveSlotsSorted(placed);
    SortedIsKept(placed);
    LettersOfPrefix(tiles, n);
    calc {
      Answer(tiles);
      LettersOf(SortBySlot(Slotted(tiles)));
      LettersOf(SortBySlot(placed));
      LettersOf(placed);
    }
  }

  lemma LettersOfPrefix(tiles: seq<Tile>, n: nat)
    requires n <= |tiles|
    ensures LettersOf(tiles[..n]) == LettersOf(tiles)[..n]
  {
  }

  lemma ConsecutiveSlotsSorted(s: seq<Tile>)
    requires forall i :: 0 <= i < |s| ==> s[i].inSlot == Some(i)
    ensures AllPlaced(s)
    ensures forall i, j :: 0 <= i < j < |s| ==> s[i].inSlot.value < s[j].inSlot.value
  {
  }

  lemma SlottedPrefix(tiles: seq<Tile>, n: nat)
    requires n <= |tiles|
    requires forall i :: 0 <= i < |tiles| ==> tiles[i].inSlot == if i < n then Some(i) else None
    ensures Slotted(tiles) == tiles[..n]
  {
    var placed, rest := tiles[..n], tiles[n..];
    assert tiles == placed + rest;
    forall i | 0 <= i < |placed| ensures placed[i].inSlot.Some? {
      assert placed[i] == tiles[i];
    }
    forall i | 0 <= i < |rest| ensures rest[i].inSlot.None? {
      assert rest[i] == tiles[n + i];
    }
    SlottedAllPlaced(placed);
    SlottedNonePlaced(rest);
    SlottedConcat(placed, rest);
  }

  /** The intended arrangement reads FEBRUARYEIGHTH. */
  lemma IntendedAnswer(tiles: seq<Tile>)
    requires IsIntendedArrangement(tiles)
    ensures Answer(tiles) == Intended
  {
    PrefixInSlotsAnswer(tiles, |Intended|);
    assert (Intended + DecoyLetters)[..|Intended|] == Intended;
  }

  /**
   * The intended arrangement is a legal table state, reads FEBRUARYEIGHTH, and
   * the corrected table accepts it.
   */
  lemma IntendedArrangementAccepted(tiles: seq<Tile>)
    requires IsIntendedArrangement(tiles)
    ensures SlotsDistinct(tiles)
    ensures Answer(tiles) == Intended
    ensures Base64.IsLatin1(Answer(tiles))
    ensures Solutions.ValidateCorrected(3, Answer(tiles))
  {
    IntendedSlotsDistinct(tiles);
    IntendedAnswer(tiles);
    IntendedNormalizes();
    Solutions.CorrectedRoom3Iff(Intended);
  }

  /** FEBRUARYEIGHTH normalises to the corrected stored answer. */
  lemma IntendedNormalizes()
    ensures Base64.IsLatin1(Intended) && Solutions.Normalize(Intended) == "februaryeighth"
  {
    GroupFacts();
    UpperNoOConcat(ReceiptLetters, WineLetters);
    UpperNoOConcat(ReceiptLetters + WineLetters, MenuLetters);
    assert forall i :: 0 <= i < |Intended| ==> !Solutions.IsSeparator(Intended[i]);
    Solutions.PaddedNormalize([], Intended, []);
    assert [] + Intended + [] == Intended;
    Solutions.LowerConcat(ReceiptLetters, WineLetters);
    Solutions.LowerConcat(ReceiptLetters + WineLetters, MenuLetters);
    GroupsLowered();
    JoinedLowered("febru", "aryei", "ghth");
  }

  lemma GroupsLowered()
    ensures Solutions.Lower(ReceiptLetters) == "febru"
    ensures Solutions.Lower(WineLetters) == "aryei"
    ensures Solutions.Lower(MenuLetters) == "ghth"
  {
  }

  lemma JoinedLowered(x: string, y: string, z: string)
    requires x == "febru" && y == "aryei" && z == "ghth"
    ensures x + y + z == "februaryeighth"
  {
  }

  /** Sorting a list already in strictly increasing slot order leaves it as it is. */
  lemma {:induction false} SortedIsKept(s: seq<Tile>)
    requires AllPlaced(s)
    requires forall i, j :: 0 <= i < j < |s| ==> s[i].inSlot.value < s[j].inSlot.value
    ensures SortBySlot(s) == s
  {
    if s != [] {
      SortedIsKept(s[1..]);
    }
  }

  /** The receipt, wine and menu checks: exact string equality, and an unlocked group stays unlocked. */
  function CheckPuzzleUpdate(g: Groups, which: nat, input: string): (r: Groups)
    requires which < 3
    ensures which == 0 ==> r == g.(receipt := g.receipt || input == "21")
    ensures which == 1 ==> r == g.(wine := g.wine || input == "10")
    ensures which == 2 ==> r == g.(menu := g.menu || input == "4")
  {
    if which == 0 then (if input == "21" then g.(receipt := true) else g)
    else if which == 1 then (if input == "10" then g.(wine := true) else g)
    else (if input == "4" then g.(menu := true) else g)
  }

  /** The submitted answer is Latin-1, and the corrected `validate` accepts it exactly when it normalises to `februaryeighth`. */
  lemma SubmitVerdict(tiles: seq<Tile>, g: Groups)
    requires LettersOf(tiles) == TableLetters(g)
    ensures Base64.IsLatin1(Answer(tiles))
    ensures Solutions.ValidateCorrected(3, Answer(tiles)) <==> Solutions.Normalize(Answer(tiles)) == "februaryeighth"
  {
    AnswerIsLatin1(tiles, g);
    Solutions.CorrectedRoom3Iff(Answer(tiles));
  }

  class RestaurantRoom {
    var unlockedGroups: Groups
    var tiles: seq<Tile>
    var selectedTileId: Option<TileId>
    var showWrongAnswer: bool
    var isShaking: bool
    /** Pending half-second timeouts of a wrong sub-puzzle answer; each stops the shake. */
    var shakeTimers: nat
    /** Pending two-second timeouts of a wrong submission; each hides the message and stops the shake. */
    var submitTimers: nat

    /**
     * The tiles always carry the table letters, in order, and no two share a
     * slot; the wrong-answer message and the shake are never on screen without
     * a pending timeout that will take them down.
     */
    ghost predicate Valid()
      reads this
    {
      LettersOf(tiles) == TableLetters(unlockedGroups) && SlotsDistinct(tiles)
      && (showWrongAnswer ==> submitTimers > 0)
      && (isShaking ==> shakeTimers + submitTimers > 0)
    }

    /** The feedback state: message, shake and the two kinds of pending timeouts. */
    function Feedback(): (bool, bool, nat, nat)
      reads this
    {
      (showWrongAnswer, isShaking, shakeTimers, submitTimers)
    }

    constructor ()
      ensures Valid() && unlockedGroups == Groups(false, false, false)
      ensures tiles == [] && selectedTileId.None?
      ensures Feedback() == (false, false, 0, 0)
    {
      unlockedGroups := Groups(false, false, false);
      tiles := [];
      selectedTileId := None;
      showWrongAnswer, isShaking, shakeTimers, submitTimers := false, false, 0, 0;
    }

    /**
     * A sub-puzzle's Unlock (0 receipt, 1 wine, 2 menu). A right answer sets the
     * group's flag in a new `unlockedGroups` record, so the tile effect rebuilds
     * every tile out of its slot; the selection is left as it was. A wrong
     * answer starts the shake and schedules a half-second timeout to stop it.
     */
    method CheckPuzzle(which: nat, input: string)
      requires Valid() && which < 3
      modifies this
      ensures Valid() && selectedTileId == old(selectedTileId)
      ensures unlockedGroups == CheckPuzzleUpdate(old(unlockedGroups), which, input)
      ensures (which == 0 && input == "21") || (which == 1 && input == "10") || (which == 2 && input == "4") ==>
        tiles == BuildTiles(unlockedGroups) && Feedback() == old(Feedback())
      ensures !((which == 0 && input == "21") || (which == 1 && input == "10") || (which == 2 && input == "4")) ==>
        tiles == old(tiles) && Feedback() == (old(showWrongAnswer), true, old(shakeTimers) + 1, old(submitTimers))
    {
      var g := CheckPuzzleUpdate(unlockedGroups, which, input);
      if (which == 0 && input == "21") || (which == 1 && input == "10") || (which == 2 && input == "4") {
        unlockedGroups := g;
        tiles := BuildTiles(g);
        assert LettersOf(tiles) == TableLetters(g);
      } else {
        isShaking := true;
        shakeTimers := shakeTimers + 1;
      }
    }

    /** A half-second timeout fires and stops the shake, whatever started it again since. */
    method ShakeTimeout()
      requires Valid() && shakeTimers > 0
      modifies this
      ensures Valid() && (unlockedGroups, tiles, selectedTileId) == old((unlockedGroups, tiles, selectedTileId))
      ensures Feedback() == (old(showWrongAnswer), false, old(shakeTimers) - 1, old(submitTimers))
    {
      isShaking := false;
      shakeTimers := shakeTimers - 1;
    }

    /** A two-second timeout fires, hiding the wrong-answer message and stopping the shake. */
    method SubmitTimeout()
      requires Valid() && submitTimers > 0
      modifies this
      ensures Valid() && (unlockedGroups, tiles, selectedTileId) == old((unlockedGroups, tiles, selectedTileId))
      ensures Feedback() == (false, false, old(shakeTimers), old(submitTimers) - 1)
    {
      showWrongAnswer, isShaking := false, false;
      submitTimers := submitTimers - 1;
    }

    method TileClick(id: TileId)
      requires Valid()
      modifies this
      ensures Valid() && unlockedGroups == old(unlockedGroups) && Feedback() == old(Feedback())
      ensures (tiles, selectedTileId) == TileClickUpdate(old(tiles), old(selectedTileId), id)
    {
      TileClickKeepsDistinct(tiles, selectedTileId, id);
      var r := TileClickUpdate(tiles, selectedTileId, id);
      tiles, selectedTileId := r.0, r.1;
    }

    method SlotClick(slot: nat)
      requires Valid()
      modifies this
      ensures Valid() && unlockedGroups == old(unlockedGroups) && Feedback() == old(Feedback())
      ensures (tiles, selectedTileId) == SlotClickUpdate(old(tiles), old(selectedTileId), slot)
    {
      SlotClickKeepsDistinct(tiles, selectedTileId, slot);
      if selectedTileId.Some? && Find(tiles, selectedTileId.value).Some? {
        SlotClickMoves(tiles, selectedTileId, slot);
      }
      var r := SlotClickUpdate(tiles, selectedTileId, slot);
      tiles, selectedTileId := r.0, r.1;
    }

    /**
     * `validate(3, answer)` on the slotted letters, against the corrected
     * table: it accepts exactly when they normalise to `februaryeighth`.
     */
    method Verdict() returns (accepted: bool)
      requires Valid()
      ensures Base64.IsLatin1(Answer(tiles))
      ensures accepted <==> Solutions.Normalize(Answer(tiles)) == "februaryeighth"
    {
      SubmitVerdict(tiles, unlockedGroups);
      accepted := Solutions.ValidateCorrected(3, Answer(tiles));
    }

    /**
     * `handleSubmit`: `onComplete` fires (`completed`) exactly when the slotted
     * letters form the intended answer. Otherwise the message shows, the tiles
     * shake, and a two-second timeout to undo both is scheduled.
     */
    method Submit() returns (completed: bool)
      requires Valid()
      modifies this
      ensures Valid() && (unlockedGroups, tiles, selectedTileId) == old((unlockedGroups, tiles, selectedTileId))
      ensures completed <==> Solutions.Normalize(Answer(tiles)) == "februaryeighth"
      ensures Feedback() == if completed then old(Feedback())
        else (true, true, old(shakeTimers), old(submitTimers) + 1)
    {
      completed := Verdict();
      if !completed {
        showWrongAnswer, isShaking := true, true;
        submitTimers := submitTimers + 1;
      }
    }
  }
}
