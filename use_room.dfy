/**
 * The game-progress store of src/hooks/useRoom.js. Each command hands
 * `setGameState` a pure rebuild of the previous record; those rebuilds are the
 * `...Update` functions below, and `RoomStore` is the hook holding the record.
 * Persistence to local storage is not part of this model: the store is held in memory.
 */
module GameProgress {
  import opened Wrappers

  /** One entry of `rooms`; a missing counter reads as 0 wherever the source reads it (`|| 0`). */
  datatype RoomProgress = RoomProgress(completed: bool, attempts: nat, hintsUsed: nat, foundNashes: Option<seq<int>>)

  /** `startTime` and `endTime` are millisecond timestamps or `null` (`None`). */
  datatype GameState = GameState(
    currentRoom: int,
    rooms: map<int, RoomProgress>,
    totalHintsUsed: int,
    startTime: Option<int>,
    endTime: Option<int>)

  const LastRoom := 6

  const Fresh := RoomProgress(false, 0, 0, None)

  /** `initialGameState`: seven untouched rooms, room 2 also tracking found photos. */
  const Initial := GameState(
    0,
    map[0 := Fresh, 1 := Fresh, 2 := Fresh.(foundNashes := Some([])), 3 := Fresh,
        4 := Fresh, 5 := Fresh, 6 := Fresh],
    0, None, None)

  /** JavaScript truthiness of a timestamp: `null` and `0` are falsy. */
  predicate Truthy(t: Option<int>) {
    t.Some? && t.value != 0
  }

  /**
   * Sum of `hintsUsed` over every room entry: it bounds each room's count,
   * and rooms that have used no hints add up to zero.
   */
  ghost function SumHints(rooms: map<int, RoomProgress>): (r: nat)
    ensures forall k :: k in rooms ==> rooms[k].hintsUsed <= r
    ensures (forall k :: k in rooms ==> rooms[k].hintsUsed == 0) ==> r == 0
    decreases |rooms|
  {
    if exists k :: k in rooms then
      var k :| k in rooms;
      assert forall j :: j in rooms && j != k ==> j in rooms - {k};
      rooms[k].hintsUsed + SumHints(rooms - {k})
    else 0
  }

  /**
   * What every reachable state satisfies; in particular the total never
   * falls below any one room's hint count.
   */
  ghost predicate Valid(s: GameState)
    ensures Valid(s) ==> forall i :: i in s.rooms ==> s.rooms[i].hintsUsed <= s.totalHintsUsed
  {
    0 <= s.currentRoom <= LastRoom
    && (forall i :: 0 <= i <= LastRoom ==> i in s.rooms)
    && s.totalHintsUsed == SumHints(s.rooms)
  }

  /** The `nextRoom` updater; `now` stands for `Date.now()`. */
  function NextRoomUpdate(prev: GameState, now: int): (next: GameState)
    ensures next.currentRoom <= LastRoom
    ensures prev.currentRoom < LastRoom ==> next.currentRoom == prev.currentRoom + 1
    ensures prev.currentRoom >= LastRoom ==> next.currentRoom == LastRoom
    ensures next.startTime == if Truthy(prev.startTime) then prev.startTime else Some(now)
    ensures next.rooms == prev.rooms && next.totalHintsUsed == prev.totalHintsUsed
    ensures next.endTime == prev.endTime
  {
    prev.(currentRoom := if prev.currentRoom + 1 < LastRoom then prev.currentRoom + 1 else LastRoom,
          startTime := if Truthy(prev.startTime) then prev.startTime else Some(now))
  }

  /**
   * The `completeRoom` updater. An id with no entry gets the entry `{ completed: true }`,
   * whose counters read as 0 and whose `foundNashes` is absent.
   */
  function CompleteRoomUpdate(prev: GameState, id: int, now: int): (next: GameState)
    ensures id in next.rooms && next.rooms[id].completed
    ensures id in prev.rooms ==> next.rooms[id] == prev.rooms[id].(completed := true)
    ensures forall i :: i != id ==> (i in next.rooms <==> i in prev.rooms)
    ensures forall i :: i != id && i in prev.rooms ==> next.rooms[i] == prev.rooms[i]
    ensures next.endTime == (if id == LastRoom then Some(now) else prev.endTime)
    ensures next.currentRoom == prev.currentRoom && next.totalHintsUsed == prev.totalHintsUsed
    ensures next.startTime == prev.startTime
  {
    var entry := if id in prev.rooms then prev.rooms[id] else Fresh;
    prev.(rooms := prev.rooms[id := entry.(completed := true)],
          endTime := if id == LastRoom then Some(now) else prev.endTime)
  }

  /** The `useHint` updater; reading `prev.rooms[id].hintsUsed` throws when the room has no entry. */
  function UseHintUpdate(prev: GameState, id: int): (next: GameState)
    requires id in prev.rooms
    ensures next.totalHintsUsed == prev.totalHintsUsed + 1
    ensures next.rooms.Keys == prev.rooms.Keys
    ensures next.rooms[id] == prev.rooms[id].(hintsUsed := prev.rooms[id].hintsUsed + 1)
    ensures forall i :: i != id && i in prev.rooms ==> next.rooms[i] == prev.rooms[i]
    ensures next.currentRoom == prev.currentRoom && next.startTime == prev.startTime
    ensures next.endTime == prev.endTime
  {
    var entry := prev.rooms[id];
    prev.(totalHintsUsed := prev.totalHintsUsed + 1,
          rooms := prev.rooms[id := entry.(hintsUsed := entry.hintsUsed + 1)])
  }

  /** The `recordAttempt` updater. */
  function RecordAttemptUpdate(prev: GameState, id: int): (next: GameState)
    requires id in prev.rooms
    ensures next.rooms.Keys == prev.rooms.Keys
    ensures next.rooms[id] == prev.rooms[id].(attempts := prev.rooms[id].attempts + 1)
    ensures forall i :: i != id && i in prev.rooms ==> next.rooms[i] == prev.rooms[i]
    ensures next.currentRoom == prev.currentRoom && next.totalHintsUsed == prev.totalHintsUsed
    ensures next.startTime == prev.startTime && next.endTime == prev.endTime
  {
    var entry := prev.rooms[id];
    prev.(rooms := prev.rooms[id := entry.(attempts := entry.attempts + 1)])
  }

  /** The `findNash` updater: the id is appended, duplicates included. */
  function FindNashUpdate(prev: GameState, id: int, nash: int): (next: GameState)
    requires id in prev.rooms
    ensures next.rooms.Keys == prev.rooms.Keys
    ensures next.rooms[id].foundNashes.Some?
    ensures next.rooms[id].foundNashes.value == prev.rooms[id].foundNashes.GetOr([]) + [nash]
    ensures next.rooms[id].(foundNashes := None) == prev.rooms[id].(foundNashes := None)
    ensures forall i :: i != id && i in prev.rooms ==> next.rooms[i] == prev.rooms[i]
    ensures next.currentRoom == prev.currentRoom && next.totalHintsUsed == prev.totalHintsUsed
    ensures next.startTime == prev.startTime && next.endTime == prev.endTime
  {
    var entry := prev.rooms[id];
    prev.(rooms := prev.rooms[id := entry.(foundNashes := Some(entry.foundNashes.GetOr([]) + [nash]))])
  }

  /** Removing one entry takes its hints out of the sum, whichever entry the sum visits first. */
  lemma {:induction false} SumHintsRemove(rooms: map<int, RoomProgress>, k: int)
    requires k in rooms
    ensures SumHints(rooms) == rooms[k].hintsUsed + SumHints(rooms - {k})
    decreases |rooms|
  {
    var j :| j in rooms && SumHints(rooms) == rooms[j].hintsUsed + SumHints(rooms - {j});
    if j != k {
      SumHintsRemove(rooms - {j}, k);
      SumHintsRemove(rooms - {k}, j);
      assert rooms - {j} - {k} == rooms - {k} - {j};
    }
  }

  /** Replacing one entry changes the sum by the difference of its hints. */
  lemma SumHintsUpdate(rooms: map<int, RoomProgress>, k: int, entry: RoomProgress)
    ensures k in rooms ==> SumHints(rooms[k := entry]) + rooms[k].hintsUsed == SumHints(rooms) + entry.hintsUsed
    ensures k !in rooms ==> SumHints(rooms[k := entry]) == SumHints(rooms) + entry.hintsUsed
  {
    SumHintsRemove(rooms[k := entry], k);
    assert rooms[k := entry] - {k} == rooms - {k};
    if k in rooms {
      SumHintsRemove(rooms, k);
    } else {
      assert rooms - {k} == rooms;
    }
  }

  /** The initial record is a valid state: room 0, seven rooms, no hints. */
  lemma InitialValid()
    ensures Valid(Initial)
  {
    assert SumHints(Initial.rooms) == 0;
  }

  /** `nextRoom` keeps the state valid. */
  lemma NextRoomValid(s: GameState, now: int)
    requires Valid(s)
    ensures Valid(NextRoomUpdate(s, now))
  {
  }

  /** `completeRoom` keeps the state valid: an added entry carries no hints. */
  lemma CompleteRoomValid(s: GameState, id: int, now: int)
    requires Valid(s)
    ensures Valid(CompleteRoomUpdate(s, id, now))
  {
    var entry := if id in s.rooms then s.rooms[id] else Fresh;
    SumHintsUpdate(s.rooms, id, entry.(completed := true));
  }

  /** `useHint` keeps `totalHintsUsed` equal to the sum of the rooms' `hintsUsed`. */
  lemma UseHintValid(s: GameState, id: int)
    requires Valid(s) && id in s.rooms
    ensures Valid(UseHintUpdate(s, id))
  {
    var entry := s.rooms[id];
    SumHintsUpdate(s.rooms, id, entry.(hintsUsed := entry.hintsUsed + 1));
  }

  /** `recordAttempt` keeps the state valid. */
  lemma RecordAttemptValid(s: GameState, id: int)
    requires Valid(s) && id in s.rooms
    ensures Valid(RecordAttemptUpdate(s, id))
  {
    var entry := s.rooms[id];
    var next := RecordAttemptUpdate(s, id);
    assert next.rooms == s.rooms[id := entry.(attempts := entry.attempts + 1)];
    SumHintsUpdate(s.rooms, id, entry.(attempts := entry.attempts + 1));
  }

  /** `findNash` keeps the state valid. */
  lemma FindNashValid(s: GameState, id: int, nash: int)
    requires Valid(s) && id in s.rooms
    ensures Valid(FindNashUpdate(s, id, nash))
  {
    var entry := s.rooms[id];
    SumHintsUpdate(s.rooms, id, entry.(foundNashes := Some(entry.foundNashes.GetOr([]) + [nash])));
  }

  /** `nextRoom` called once per timestamp in `nows`. */
  function NextRoomTimes(s: GameState, nows: seq<int>): GameState
    decreases |nows|
  {
    if nows == [] then s else NextRoomTimes(NextRoomUpdate(s, nows[0]), nows[1..])
  }

  /** After k calls to `nextRoom` the player is in room min(start + k, 6), and stays there. */
  lemma {:induction false} NextRoomSaturates(s: GameState, nows: seq<int>)
    requires 0 <= s.currentRoom <= LastRoom
    ensures NextRoomTimes(s, nows).currentRoom
         == if s.currentRoom + |nows| < LastRoom then s.currentRoom + |nows| else LastRoom
    ensures NextRoomTimes(s, nows).rooms == s.rooms
    decreases |nows|
  {
    if nows != [] {
      NextRoomSaturates(NextRoomUpdate(s, nows[0]), nows[1..]);
    }
  }

  /** `nextRoom` sets `startTime` at most once: the first truthy timestamp is kept forever after. */
  lemma {:induction false} StartTimeKept(s: GameState, nows: seq<int>)
    requires Truthy(s.startTime)
    ensures NextRoomTimes(s, nows).startTime == s.startTime
    decreases |nows|
  {
    if nows != [] {
      StartTimeKept(NextRoomUpdate(s, nows[0]), nows[1..]);
    }
  }

  /** Completing a room twice is the same as completing it once. */
  lemma CompleteRoomIdempotent(s: GameState, id: int, now: int)
    ensures CompleteRoomUpdate(CompleteRoomUpdate(s, id, now), id, now) == CompleteRoomUpdate(s, id, now)
  {
    var once := CompleteRoomUpdate(s, id, now);
    assert once.rooms[id := once.rooms[id].(completed := true)] == once.rooms;
  }

  /** `useHint` called `k` times on one room. */
  function UseHintTimes(s: GameState, id: int, k: nat): (r: GameState)
    requires id in s.rooms
    ensures id in r.rooms && r.rooms.Keys == s.rooms.Keys
    decreases k
  {
    if k == 0 then s else UseHintTimes(UseHintUpdate(s, id), id, k - 1)
  }

  /** There is no cap on hints: every call counts, in the room and in the total. */
  lemma {:induction false} HintsUncapped(s: GameState, id: int, k: nat)
    requires id in s.rooms
    ensures UseHintTimes(s, id, k).rooms[id].hintsUsed == s.rooms[id].hintsUsed + k
    ensures UseHintTimes(s, id, k).totalHintsUsed == s.totalHintsUsed + k
    decreases k
  {
    if k > 0 {
      HintsUncapped(UseHintUpdate(s, id), id, k - 1);
    }
  }

  /** Finding the same photo twice keeps both entries. */
  lemma FindNashKeepsDuplicates(s: GameState, id: int, nash: int)
    requires id in s.rooms
    ensures var t := FindNashUpdate(FindNashUpdate(s, id, nash), id, nash);
      |t.rooms[id].foundNashes.value| == |s.rooms[id].foundNashes.GetOr([])| + 2
      && t.rooms[id].foundNashes.value[|t.rooms[id].foundNashes.value| - 2..] == [nash, nash]
  {
    var once := FindNashUpdate(s, id, nash);
    var twice := FindNashUpdate(once, id, nash);
    var before := s.rooms[id].foundNashes.GetOr([]);
    assert twice.rooms[id].foundNashes.value == before + [nash] + [nash];
  }

  /** No command other than `resetGame` marks a completed room as not completed. */
  lemma CompletedNeverReverts(s: GameState, i: int, id: int, now: int, nash: int)
    requires i in s.rooms && s.rooms[i].completed && id in s.rooms
    ensures NextRoomUpdate(s, now).rooms[i].completed
    ensures CompleteRoomUpdate(s, id, now).rooms[i].completed
    ensures UseHintUpdate(s, id).rooms[i].completed
    ensures RecordAttemptUpdate(s, id).rooms[i].completed
    ensures FindNashUpdate(s, id, nash).rooms[i].completed
  {
  }

  /** The hook: the current record and its six commands. */
  class RoomStore {
    var gameState: GameState

    constructor ()
      ensures gameState == Initial && Valid(gameState)
    {
      gameState := Initial;
      InitialValid();
    }

    method NextRoom(now: int)
      requires Valid(gameState)
      modifies this
      ensures gameState == NextRoomUpdate(old(gameState), now) && Valid(gameState)
    {
      NextRoomValid(gameState, now);
      gameState := NextRoomUpdate(gameState, now);
    }

    method CompleteRoom(id: int, now: int)
      requires Valid(gameState)
      modifies this
      ensures gameState == CompleteRoomUpdate(old(gameState), id, now) && Valid(gameState)
    {
      CompleteRoomValid(gameState, id, now);
      gameState := CompleteRoomUpdate(gameState, id, now);
    }

    method UseHint(id: int)
      requires Valid(gameState) && id in gameState.rooms
      modifies this
      ensures gameState == UseHintUpdate(old(gameState), id) && Valid(gameState)
    {
      UseHintValid(gameState, id);
      gameState := UseHintUpdate(gameState, id);
    }

    method RecordAttempt(id: int)
      requires Valid(gameState) && id in gameState.rooms
      modifies this
      ensures gameState == RecordAttemptUpdate(old(gameState), id) && Valid(gameState)
    {
      RecordAttemptValid(gameState, id);
      gameState := RecordAttemptUpdate(gameState, id);
    }

    method FindNash(id: int, nash: int)
      requires Valid(gameState) && id in gameState.rooms
      modifies this
      ensures gameState == FindNashUpdate(old(gameState), id, nash) && Valid(gameState)
    {
      FindNashValid(gameState, id, nash);
      gameState := FindNashUpdate(gameState, id, nash);
    }

    method ResetGame()
      modifies this
      ensures gameState == Initial && Valid(gameState)
    {
      gameState := Initial;
      InitialValid();
    }
  }
}
