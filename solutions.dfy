/**
 * The answer validator of src/utils/solutions.js: an answer is normalised
 * (lower-cased, whitespace, '-', '/' and '.' removed) and its `btoa` encoding
 * is compared with a per-room table of encoded answers.
 */
module Solutions {
  import opened Wrappers
  import Base64

  /**
   * JavaScript's `\s`: tab, LF, VT, FF, CR, U+FEFF and the line and paragraph
   * separators, plus every space separator (space, no-break space, U+1680,
   * U+2000..U+200A, U+202F, U+205F, U+3000).
   */
  predicate IsWhitespace(c: char) {
    c == '\t' || c == '\n' || c == '\U{B}' || c == '\U{C}' || c == '\r' || c == ' ' || c == '\U{A0}'
    || c == '\U{1680}' || ('\U{2000}' <= c <= '\U{200A}') || c == '\U{2028}' || c == '\U{2029}'
    || c == '\U{202F}' || c == '\U{205F}' || c == '\U{3000}' || c == '\U{FEFF}'
  }

  /** The characters `validate` strips: `[\s\-\/\.]`. */
  predicate IsSeparator(c: char) {
    IsWhitespace(c) || c == '-' || c == '/' || c == '.'
  }

  /**
   * `toLowerCase` on one character. In U+0000..U+00FF, A-Z and U+00C0..U+00DE
   * except U+00D7 move down by 0x20. Four characters above U+00FF lower-case
   * into Latin-1: U+0178 to U+00FF, U+1E9E to U+00DF, the Kelvin sign U+212A to
   * 'k' and the Angstrom sign U+212B to U+00E5. Every other character above
   * U+00FF is left as it is; its true lower case stays above U+00FF too (the
   * lower case of U+0130 ends in U+0307), so `btoa` throws on both.
   */
  function LowerChar(c: char): (r: char)
    ensures c as int < 256 ==> r as int < 256
    ensures !('A' <= r <= 'Z')
    ensures 'A' <= c <= 'Z' ==> r as int == c as int + 32
    ensures !IsSeparator(c) <==> !IsSeparator(r)
    ensures r as int < 256 ==> c as int < 256 || c in LatinBoundUpper
  {
    if 'A' <= c <= 'Z' || ('\U{C0}' <= c <= '\U{DE}' && c != '\U{D7}') then (c as int + 32) as char
    else if c == '\U{178}' then '\U{FF}'
    else if c == '\U{1E9E}' then '\U{DF}'
    else if c == '\U{212A}' then 'k'
    else if c == '\U{212B}' then '\U{E5}'
    else c
  }

  /** The characters above U+00FF whose lower case is a Latin-1 character. */
  const LatinBoundUpper: set<char> := {'\U{178}', '\U{1E9E}', '\U{212A}', '\U{212B}'}

  function Lower(s: string): (r: string)
    ensures |r| == |s|
    ensures forall i :: 0 <= i < |s| ==> r[i] == LowerChar(s[i])
  {
    if s == [] then [] else [LowerChar(s[0])] + Lower(s[1..])
  }

  /** The two character classes the source removes with `replace`. */
  datatype CharClass = Whitespace | Separators

  predicate InClass(cls: CharClass, c: char) {
    match cls
    case Whitespace => IsWhitespace(c)
    case Separators => IsSeparator(c)
  }

  /** `str.replace(re, '')` for the character class `drop`. */
  function Strip(s: string, drop: CharClass): (r: string)
    ensures forall i :: 0 <= i < |r| ==> !InClass(drop, r[i])
    ensures |r| <= |s|
  {
    if s == [] then [] else (if InClass(drop, s[0]) then [] else [s[0]]) + Strip(s[1..], drop)
  }

  /** A character `toLowerCase` leaves alone. */
  predicate IsLowered(c: char) {
    LowerChar(c) == c
  }

  /** What normalisation produces: no separator and nothing left to lower-case. */
  predicate IsNormal(s: string) {
    forall i :: 0 <= i < |s| ==> !IsSeparator(s[i]) && IsLowered(s[i])
  }

  /**
   * The normal form `validate` compares,
   * `answer.toLowerCase().replace(/[\s\-\/\.]/g, '')`, computed one character at a
   * time (`NormalizeIsLowerThenReplace` shows it is that composition). It holds
   * no separator and nothing left to lower-case, is no longer than the answer,
   * and `btoa` can encode it whenever it can encode the answer.
   */
  function Normalize(answer: string): (r: string)
    ensures IsNormal(r) && |r| <= |answer|
    ensures Base64.IsLatin1(answer) ==> Base64.IsLatin1(r)
  {
    if answer == [] then [] else NormalHead(answer[0]) + Normalize(answer[1..])
  }

  /** Normalisation makes an 'o' only out of an 'O' or an 'o' of the answer. */
  lemma {:induction false} NormalizeCountsO(answer: string)
    ensures multiset(Normalize(answer))['o'] <= multiset(answer)['O'] + multiset(answer)['o']
  {
    if answer != [] {
      var rest := answer[1..];
      NormalizeCountsO(rest);
      var h := NormalHead(answer[0]);
      assert answer == [answer[0]] + rest;
      assert multiset(answer) == multiset([answer[0]]) + multiset(rest);
      assert multiset(Normalize(answer)) == multiset(h) + multiset(Normalize(rest));
      HeadCountsO(answer[0]);
    }
  }

  /** What one character contributes to the normal form. */
  function NormalHead(x: char): string {
    if IsSeparator(LowerChar(x)) then [] else [LowerChar(x)]
  }

  lemma HeadCountsO(x: char)
    ensures multiset(NormalHead(x))['o'] <= multiset([x])['O'] + multiset([x])['o']
  {
    assert LowerChar(x) == 'o' ==> x == 'O' || x == 'o';
  }

  /**
   * `hash(str)`: `btoa(str.toLowerCase().replace(/\s/g, ''))`; `btoa` throws
   * unless that string is Latin-1, hence the requires. Decoding the hash gives
   * back the lower-cased text without its whitespace.
   */
  function Hash(str: string): (r: string)
    requires Base64.IsLatin1(Strip(Lower(str), Whitespace))
    ensures Base64.Decode(r) == Strip(Lower(str), Whitespace)
  {
    Base64.DecodeEncode(Strip(Lower(str), Whitespace));
    Base64.Encode(Strip(Lower(str), Whitespace))
  }

  /**
   * The plain answers the table is built from; room 4 stores a selection id
   * instead. Each is already in normal form and Latin-1.
   */
  function PlainAnswer(room: int): (r: Option<string>)
    ensures r.Some? <==> 0 <= room <= 5 && room != 4
    ensures r.Some? ==> IsNormal(r.value) && Base64.IsLatin1(r.value)
  {
    if room == 0 then DigitsAndLettersNormal("10052024"); Some("10052024")
    else if room == 1 then DigitsAndLettersNormal("ristora"); Some("ristora")
    else if room == 2 then DigitsAndLettersNormal("ilando"); Some("ilando")
    else if room == 3 then DigitsAndLettersNormal("octoberfifth"); Some("octoberfifth")
    else if room == 5 then DigitsAndLettersNormal("02142025"); Some("02142025")
    else None
  }

  predicate IsDigitOrLetter(c: char) {
    '0' <= c <= '9' || 'a' <= c <= 'z'
  }

  /** Digits and lower-case ASCII letters are normal and Latin-1. */
  lemma DigitsAndLettersNormal(p: string)
    requires forall i :: 0 <= i < |p| ==> IsDigitOrLetter(p[i])
    ensures IsNormal(p) && Base64.IsLatin1(p)
  {
  }

  /**
   * `SOLUTIONS[room]`, `None` standing for `undefined`: rooms 0 to 5 have an
   * entry, and each encoded entry decodes to its plain answer.
   */
  function Stored(room: int): (r: Option<string>)
    ensures r.Some? <==> 0 <= room <= 5
    ensures PlainAnswer(room).Some? ==> r.Some? && Base64.Decode(r.value) == PlainAnswer(room).value
  {
    if room == 4 then Some("i-love-you-im-sorry")
    else if PlainAnswer(room).Some? then
      HashOfNormal(PlainAnswer(room).value);
      Some(Hash(PlainAnswer(room).value))
    else None
  }

  /**
   * The comparison `hash(normalized) === stored || stored === normalized`: it
   * holds exactly when there is an entry and it is the encoding of the normal
   * form, or the normal form itself.
   */
  function Matches(stored: Option<string>, answer: string): (r: bool)
    requires Base64.IsLatin1(Normalize(answer))
    ensures r <==> stored.Some? && (Base64.Encode(Normalize(answer)) == stored.value || stored.value == Normalize(answer))
  {
    var normalized := Normalize(answer);
    HashOfNormal(normalized);
    match stored
    case None => false
    case Some(v) => Hash(normalized) == v || v == normalized
  }

  /**
   * `validate(room, answer)`. `btoa` throws when the normal form holds a
   * character above U+00FF, hence the requires. For rooms 0, 1, 2, 3 and 5 it
   * accepts exactly the answers whose normal form is the plain answer; every
   * other room, 4 included, rejects every answer.
   */
  function Validate(room: int, answer: string): (r: bool)
    requires Base64.IsLatin1(Normalize(answer))
    ensures PlainAnswer(room).Some? ==> (r <==> Normalize(answer) == PlainAnswer(room).value)
    ensures PlainAnswer(room).None? ==> !r
  {
    if PlainAnswer(room).Some? then
      EncodedEntryIff(room, answer);
      Matches(Stored(room), answer)
    else
      NoEncodedEntryRejects(room, answer);
      Matches(Stored(room), answer)
  }

  lemma LatinPreserved(s: string)
    requires Base64.IsLatin1(s)
    ensures Base64.IsLatin1(Strip(Lower(s), Whitespace))
  {
    StripKeepsLatin(Lower(s), Whitespace);
  }

  lemma {:induction false} StripKeepsLatin(s: string, drop: CharClass)
    requires Base64.IsLatin1(s)
    ensures Base64.IsLatin1(Strip(s, drop))
  {
    if s != [] {
      StripKeepsLatin(s[1..], drop);
    }
  }

  /** The one-pass normal form is exactly lower-casing followed by the `replace`. */
  lemma {:induction false} NormalizeIsLowerThenReplace(answer: string)
    ensures Normalize(answer) == Strip(Lower(answer), Separators)
  {
    if answer != [] {
      NormalizeIsLowerThenReplace(answer[1..]);
      assert Lower(answer)[1..] == Lower(answer[1..]);
    }
  }

  lemma LowerCharIdempotent(c: char)
    ensures IsLowered(LowerChar(c))
  {
  }

  /** An answer made only of separators normalises to the empty string. */
  lemma {:induction false} NormalizeBlank(answer: string)
    requires forall i :: 0 <= i < |answer| ==> IsSeparator(answer[i])
    ensures Normalize(answer) == []
  {
    if answer != [] {
      NormalizeBlank(answer[1..]);
    }
  }

  /** `validate` sees only the normal form of the answer. */
  lemma SameNormalFormSameVerdict(room: int, a: string, b: string)
    requires Base64.IsLatin1(Normalize(a)) && Normalize(a) == Normalize(b)
    ensures Validate(room, a) == Validate(room, b)
  {
  }

  lemma {:induction false} StripKeepsAll(s: string, drop: CharClass)
    requires forall i :: 0 <= i < |s| ==> !InClass(drop, s[i])
    ensures Strip(s, drop) == s
  {
    if s != [] {
      StripKeepsAll(s[1..], drop);
    }
  }

  /** A string already in normal form is its own normal form. */
  lemma {:induction false} NormalizeKeepsNormal(s: string)
    requires IsNormal(s)
    ensures Normalize(s) == s
  {
    if s != [] {
      NormalizeKeepsNormal(s[1..]);
    }
  }

  /** Normalisation is idempotent. */
  lemma NormalizeIdempotent(answer: string)
    ensures Normalize(Normalize(answer)) == Normalize(answer)
  {
    NormalizeKeepsNormal(Normalize(answer));
  }

  /** Normalisation works character by character, so it distributes over concatenation. */
  lemma {:induction false} NormalizeConcat(x: string, y: string)
    ensures Normalize(x + y) == Normalize(x) + Normalize(y)
  {
    if x == [] {
      assert x + y == y;
    } else {
      assert (x + y)[0] == x[0] && (x + y)[1..] == x[1..] + y;
      NormalizeConcat(x[1..], y);
    }
  }

  lemma {:induction false} LowerConcat(x: string, y: string)
    ensures Lower(x + y) == Lower(x) + Lower(y)
  {
    if x == [] {
      assert x + y == y;
    } else {
      assert (x + y)[0] == x[0] && (x + y)[1..] == x[1..] + y;
      LowerConcat(x[1..], y);
    }
  }

  /**
   * A whitespace, '-', '/' or '.' anywhere in an answer does not change the
   * normal form, so it does not change the verdict.
   */
  lemma SeparatorIgnored(room: int, x: string, c: char, y: string)
    requires Base64.IsLatin1(Normalize(x + [c] + y)) && IsSeparator(c)
    ensures Normalize(x + [c] + y) == Normalize(x + y)
    ensures Validate(room, x + [c] + y) == Validate(room, x + y)
  {
    NormalizeConcat(x, [c]);
    SeparatorVanishes(c);
    assert Normalize(x + [c]) == Normalize(x) + [] == Normalize(x);
    NormalizeConcat(x + [c], y);
    NormalizeConcat(x, y);
    SameNormalFormSameVerdict(room, x + [c] + y, x + y);
  }

  lemma SeparatorVanishes(c: char)
    requires IsSeparator(c)
    ensures Normalize([c]) == []
  {
    assert [c][1..] == [];
  }

  /** Any character may be written in its lower case instead: the normal form, and so the verdict, stay the same. */
  lemma CaseIgnored(room: int, x: string, c: char, y: string)
    requires Base64.IsLatin1(Normalize(x + [c] + y))
    ensures Normalize(x + [c] + y) == Normalize(x + [LowerChar(c)] + y)
    ensures Validate(room, x + [c] + y) == Validate(room, x + [LowerChar(c)] + y)
  {
    NormalizeConcat(x + [c], y);
    NormalizeConcat(x, [c]);
    NormalizeConcat(x + [LowerChar(c)], y);
    NormalizeConcat(x, [LowerChar(c)]);
    assert Normalize([c]) == Normalize([LowerChar(c)]);
    SameNormalFormSameVerdict(room, x + [c] + y, x + [LowerChar(c)] + y);
  }

  /** `hash` encodes a string already in normal form unchanged. */
  lemma HashOfNormal(p: string)
    requires IsNormal(p) && Base64.IsLatin1(p)
    ensures Strip(Lower(p), Whitespace) == p
    ensures Hash(p) == Base64.Encode(p)
  {
    assert Lower(p) == p;
    StripKeepsAll(p, Whitespace);
  }

  /** Every plain answer is already in normal form, so `hash` encodes it unchanged. */
  lemma PlainIsNormal(room: int)
    requires PlainAnswer(room).Some?
    ensures IsNormal(PlainAnswer(room).value)
    ensures Base64.IsLatin1(PlainAnswer(room).value)
    ensures Stored(room) == Some(Base64.Encode(PlainAnswer(room).value))
  {
    HashOfNormal(PlainAnswer(room).value);
  }

  /** An entry with a plain answer stores that answer's encoding. */
  lemma StoredFromPlain(room: int, p: string, e: string)
    requires PlainAnswer(room) == Some(p) && Base64.Encode(p) == e
    ensures Stored(room) == Some(e)
  {
    PlainIsNormal(room);
  }

  /** The `btoa` encodings of the plain answers, group by group (section 4 of RFC 4648). */
  lemma EncodedRoom0()
    ensures Base64.Encode("10052024") == "MTAwNTIwMjQ="
  {
    assert Base64.EncodeGroup('1', '0', '0') == "MTAw";
    assert Base64.EncodeGroup('5', '2', '0') == "NTIw";
    assert Base64.EncodeTwo('2', '4') == "MjQ=";
  }

  lemma StoredRoom0()
    ensures Stored(0) == Some("MTAwNTIwMjQ=")
  {
    EncodedRoom0();
    StoredFromPlain(0, "10052024", "MTAwNTIwMjQ=");
  }

  lemma EncodedRoom1()
    ensures Base64.Encode("ristora") == "cmlzdG9yYQ=="
  {
    assert Base64.EncodeGroup('r', 'i', 's') == "cmlz";
    assert Base64.EncodeGroup('t', 'o', 'r') == "dG9y";
    assert Base64.EncodeOne('a') == "YQ==";
  }

  lemma StoredRoom1()
    ensures Stored(1) == Some("cmlzdG9yYQ==")
  {
    EncodedRoom1();
    StoredFromPlain(1, "ristora", "cmlzdG9yYQ==");
  }

  lemma EncodedRoom2()
    ensures Base64.Encode("ilando") == "aWxhbmRv"
  {
    assert Base64.EncodeGroup('i', 'l', 'a') == "aWxh";
    assert Base64.EncodeGroup('n', 'd', 'o') == "bmRv";
  }

  lemma StoredRoom2()
    ensures Stored(2) == Some("aWxhbmRv")
  {
    EncodedRoom2();
    StoredFromPlain(2, "ilando", "aWxhbmRv");
  }

  lemma EncodedRoom3()
    ensures Base64.Encode("octoberfifth") == "b2N0b2JlcmZpZnRo"
  {
    GroupsRoom3();
  }

  lemma GroupsRoom3()
    ensures Base64.EncodeGroup('o', 'c', 't') == "b2N0"
    ensures Base64.EncodeGroup('o', 'b', 'e') == "b2Jl"
    ensures Base64.EncodeGroup('r', 'f', 'i') == "cmZp"
    ensures Base64.EncodeGroup('f', 't', 'h') == "ZnRo"
  {
  }

  lemma StoredRoom3()
    ensures Stored(3) == Some("b2N0b2JlcmZpZnRo")
  {
    EncodedRoom3();
    StoredFromPlain(3, "octoberfifth", "b2N0b2JlcmZpZnRo");
  }

  lemma EncodedRoom5()
    ensures Base64.Encode("02142025") == "MDIxNDIwMjU="
  {
    assert Base64.EncodeGroup('0', '2', '1') == "MDIx";
    assert Base64.EncodeGroup('4', '2', '0') == "NDIw";
    assert Base64.EncodeTwo('2', '5') == "MjU=";
  }

  lemma StoredRoom5()
    ensures Stored(5) == Some("MDIxNDIwMjU=")
  {
    EncodedRoom5();
    StoredFromPlain(5, "02142025", "MDIxNDIwMjU=");
  }

  /** The table `SOLUTIONS` as the source builds it. */
  lemma StoredTable(room: int)
    ensures room == 0 ==> Stored(room) == Some("MTAwNTIwMjQ=")
    ensures room == 1 ==> Stored(room) == Some("cmlzdG9yYQ==")
    ensures room == 2 ==> Stored(room) == Some("aWxhbmRv")
    ensures room == 3 ==> Stored(room) == Some("b2N0b2JlcmZpZnRo")
    ensures room == 4 ==> Stored(room) == Some("i-love-you-im-sorry")
    ensures room == 5 ==> Stored(room) == Some("MDIxNDIwMjU=")
    ensures room < 0 || room > 5 ==> Stored(room) == None
  {
    if room == 0 { StoredRoom0(); }
    else if room == 1 { StoredRoom1(); }
    else if room == 2 { StoredRoom2(); }
    else if room == 3 { StoredRoom3(); }
    else if room == 5 { StoredRoom5(); }
  }

  /** Each encoded entry holds an upper-case letter, which no normal form does. */
  lemma StoredHasUpperCase(room: int) returns (k: nat)
    requires PlainAnswer(room).Some?
    ensures Stored(room).Some? && k < |Stored(room).value|
    ensures 'A' <= Stored(room).value[k] <= 'Z'
  {
    if room == 0 {
      var v := "MTAwNTIwMjQ=";
      k := 0;
      assert 'A' <= v[k] <= 'Z';
      StoredRoom0();
    } else if room == 1 {
      var v := "cmlzdG9yYQ==";
      k := 8;
      assert 'A' <= v[k] <= 'Z';
      StoredRoom1();
    } else if room == 2 {
      var v := "aWxhbmRv";
      k := 1;
      assert 'A' <= v[k] <= 'Z';
      StoredRoom2();
    } else if room == 3 {
      var v := "b2N0b2JlcmZpZnRo";
      k := 2;
      assert 'A' <= v[k] <= 'Z';
      StoredRoom3();
    } else {
      var v := "MDIxNDIwMjU=";
      k := 0;
      assert 'A' <= v[k] <= 'Z';
      StoredRoom5();
    }
  }

  /** An encoded entry holding an upper-case letter matches exactly the answers that normalise to its plain text. */
  lemma MatchesEncoded(p: string, k: nat, answer: string)
    requires IsNormal(p) && Base64.IsLatin1(p) && Base64.IsLatin1(Normalize(answer))
    requires k < |Base64.Encode(p)| && 'A' <= Base64.Encode(p)[k] <= 'Z'
    ensures Matches(Some(Base64.Encode(p)), answer) <==> Normalize(answer) == p
  {
    var n := Normalize(answer);
    var v := Base64.Encode(p);
    Base64.EncodeInjective(n, p);
    assert !IsLowered(v[k]);
    assert v != n;
  }

  /**
   * For every room with a typed answer, the comparison accepts exactly the
   * answers whose normal form is the plain answer: no prefix, no extension, no
   * other text.
   */
  lemma EncodedEntryIff(room: int, answer: string)
    requires PlainAnswer(room).Some? && Base64.IsLatin1(Normalize(answer))
    ensures Matches(Stored(room), answer) <==> Normalize(answer) == PlainAnswer(room).value
  {
    PlainIsNormal(room);
    var k := StoredHasUpperCase(room);
    MatchesEncoded(PlainAnswer(room).value, k, answer);
  }

  /** A stored entry holding a '-' matches no answer: `btoa` never outputs '-' and normal forms never hold it. */
  lemma MatchesNoHyphenated(v: string, k: nat, answer: string)
    requires Base64.IsLatin1(Normalize(answer)) && k < |v| && v[k] == '-'
    ensures !Matches(Some(v), answer)
  {
    var n := Normalize(answer);
    Base64.EncodeAlphabet(n);
    assert !Base64.IsOutputChar(v[k]);
    assert Base64.Encode(n) != v;
    assert IsSeparator(v[k]);
    assert n != v;
  }

  /**
   * A room without a typed answer accepts nothing: room 4 stores a hyphenated
   * id that neither side of the comparison can ever equal, and any other such
   * room has no entry at all.
   */
  lemma NoEncodedEntryRejects(room: int, answer: string)
    requires PlainAnswer(room).None? && Base64.IsLatin1(Normalize(answer))
    ensures !Matches(Stored(room), answer)
  {
    if room == 4 {
      var v := "i-love-you-im-sorry";
      assert Stored(4) == Some(v) && v[1] == '-';
      MatchesNoHyphenated(v, 1, answer);
    }
  }

  /** Blank answers (empty, or only whitespace and separators) are rejected in every room. */
  lemma BlankRejected(room: int, answer: string)
    requires forall i :: 0 <= i < |answer| ==> IsSeparator(answer[i])
    ensures Normalize(answer) == []
    ensures !Validate(room, answer)
  {
    NormalizeBlank(answer);
    StoredNeverEmpty(room);
  }

  /** No table entry is the empty string. */
  lemma StoredNeverEmpty(room: int)
    ensures Stored(room).Some? ==> Stored(room).value != ""
  {
    if room != 4 && PlainAnswer(room).Some? {
      PlainIsNormal(room);
      assert |PlainAnswer(room).value| > 0;
    }
  }

  predicate AllSeparators(s: string) {
    forall i :: 0 <= i < |s| ==> IsSeparator(s[i])
  }

  /** A word surrounded by separators normalises to the lower-cased word when the word holds no separator. */
  lemma PaddedNormalize(pre: string, w: string, post: string)
    requires AllSeparators(pre) && AllSeparators(post)
    requires forall i :: 0 <= i < |w| ==> !IsSeparator(w[i])
    ensures Normalize(pre + w + post) == Lower(w)
  {
    NormalizeConcat(pre + w, post);
    NormalizeConcat(pre, w);
    NormalizeBlank(pre);
    NormalizeBlank(post);
    NormalizeIsLowerThenReplace(w);
    StripKeepsAll(Lower(w), Separators);
  }

  /**
   * Any spelling of a plain answer in upper, lower or mixed case, with any
   * whitespace or separators around it, is accepted.
   */
  lemma PaddedSpellingAccepted(room: int, pre: string, w: string, post: string)
    requires PlainAnswer(room).Some? && Lower(w) == PlainAnswer(room).value
    requires AllSeparators(pre) && AllSeparators(post)
    ensures Normalize(pre + w + post) == PlainAnswer(room).value
    ensures Validate(room, pre + w + post)
  {
    PlainIsNormal(room);
    PaddedNormalize(pre, w, post);
  }

  lemma NormalizeSeparatorsRight(a: string, sep: string)
    requires AllSeparators(sep)
    ensures Normalize(a + sep) == Normalize(a)
  {
    NormalizeConcat(a, sep);
    NormalizeBlank(sep);
    assert Normalize(a) + [] == Normalize(a);
  }

  lemma NormalizeNormalRight(a: string, x: string)
    requires IsNormal(x)
    ensures Normalize(a + x) == Normalize(a) + x
  {
    NormalizeConcat(a, x);
    NormalizeKeepsNormal(x);
  }

  /** Normal pieces joined by separators normalise to the pieces joined directly. */
  lemma SeparatedNormalize(pre: string, x: string, s1: string, y: string, s2: string, z: string, post: string)
    requires AllSeparators(pre) && AllSeparators(s1) && AllSeparators(s2) && AllSeparators(post)
    requires IsNormal(x) && IsNormal(y) && IsNormal(z)
    ensures Normalize(pre + x + s1 + y + s2 + z + post) == x + y + z
  {
    NormalizeSeparatorsRight(pre + x + s1 + y + s2 + z, post);
    NormalizeNormalRight(pre + x + s1 + y + s2, z);
    NormalizeSeparatorsRight(pre + x + s1 + y, s2);
    NormalizeNormalRight(pre + x + s1, y);
    NormalizeSeparatorsRight(pre + x, s1);
    NormalizeNormalRight(pre, x);
    NormalizeBlank(pre);
    assert [] + x == x;
  }

  /**
   * The room 0 date with any separators (or none) between day, month and year
   * and around it: `10052024`, `10/05/2024`, `10.05.2024`, `10-05-2024`,
   * `10 05 2024`, `10  05  2024`, `10-05/2024`, `  10052024  `.
   */
  lemma Room0DateFormatsAccepted(pre: string, s1: string, s2: string, post: string)
    requires AllSeparators(pre) && AllSeparators(s1) && AllSeparators(s2) && AllSeparators(post)
    ensures Normalize(pre + "10" + s1 + "05" + s2 + "2024" + post) == "10052024"
    ensures Validate(0, pre + "10" + s1 + "05" + s2 + "2024" + post)
  {
    DateNormalForm(pre, s1, s2, post);
    DateGroupsJoin();
  }

  lemma DateGroupsJoin()
    ensures "10" + "05" + "2024" == "10052024"
  {
  }

  lemma DateNormalForm(pre: string, s1: string, s2: string, post: string)
    requires AllSeparators(pre) && AllSeparators(s1) && AllSeparators(s2) && AllSeparators(post)
    ensures Normalize(pre + "10" + s1 + "05" + s2 + "2024" + post) == "10" + "05" + "2024"
  {
    DigitsAndLettersNormal("10");
    DigitsAndLettersNormal("05");
    DigitsAndLettersNormal("2024");
    SeparatedNormalize(pre, "10", s1, "05", s2, "2024", post);
  }

  /** A word with no separators is rejected unless it lower-cases to the plain answer. */
  lemma OtherSpellingRejected(room: int, w: string)
    requires PlainAnswer(room).Some? && Base64.IsLatin1(Normalize(w))
    requires forall i :: 0 <= i < |w| ==> !IsSeparator(w[i])
    requires Lower(w) != PlainAnswer(room).value
    ensures !Validate(room, w)
  {
    UnpaddedNormalize(w);
  }

  /** A word without separators normalises to its lower-cased form. */
  lemma UnpaddedNormalize(w: string)
    requires forall i :: 0 <= i < |w| ==> !IsSeparator(w[i])
    ensures Normalize(w) == Lower(w)
  {
    NormalizeIsLowerThenReplace(w);
    StripKeepsAll(Lower(w), Separators);
  }

  /** Room 3 as stored rejects every answer holding at most one 'O' or 'o'. */
  lemma Room3NeedsTwoOs(answer: string)
    requires Base64.IsLatin1(Normalize(answer))
    requires multiset(answer)['O'] + multiset(answer)['o'] <= 1
    ensures !Validate(3, answer)
  {
    NormalizeCountsO(answer);
    Room3PlainTwoOs();
  }

  lemma Room3PlainTwoOs()
    ensures PlainAnswer(3).Some? && multiset(PlainAnswer(3).value)['o'] >= 2
  {
    var p := PlainAnswer(3).value;
    assert p[0] == 'o' && p[3] == 'o';
    TwoOccurrences(p, 0, 3);
  }

  /** A character at two positions occurs at least twice. */
  lemma TwoOccurrences(p: string, i: nat, j: nat)
    requires i < j < |p| && p[i] == p[j]
    ensures multiset(p)[p[i]] >= 2
  {
    assert p == p[..i] + [p[i]] + p[i + 1..j] + [p[j]] + p[j + 1..];
  }

  /** `RIST` (a prefix) and `RISTORAX` (an extension) are rejected for room 1. */
  lemma Room1PrefixAndExtensionRejected(a: string)
    requires a == "RIST" || a == "RISTORAX"
    ensures Base64.IsLatin1(Normalize(a)) && !Validate(1, a)
  {
    UpperWord(a);
    OtherSpellingRejected(1, a);
  }

  /** A word of upper-case ASCII letters is Latin-1, holds no separator and lower-cases to a word of its length. */
  lemma UpperWord(a: string)
    requires forall i :: 0 <= i < |a| ==> 'A' <= a[i] <= 'Z'
    ensures Base64.IsLatin1(a) && |Lower(a)| == |a|
    ensures forall i :: 0 <= i < |a| ==> !IsSeparator(a[i])
  {
  }

  /** `WRONG` and the wrong date `12252024` are rejected for room 0. */
  lemma Room0WrongAnswersRejected(a: string)
    requires a == "WRONG" || a == "12252024"
    ensures Base64.IsLatin1(Normalize(a)) && !Validate(0, a)
  {
    WrongRoom0Spelling(a);
    OtherSpellingRejected(0, a);
  }

  lemma WrongRoom0Spelling(a: string)
    requires a == "WRONG" || a == "12252024"
    ensures Base64.IsLatin1(a) && Lower(a) != "10052024"
    ensures forall i :: 0 <= i < |a| ==> !IsSeparator(a[i])
  {
    if a == "WRONG" {
      WordChars(a);
    } else {
      DateChars(a);
    }
  }

  lemma WordChars(a: string)
    requires a == "WRONG"
    ensures Base64.IsLatin1(a) && |Lower(a)| == 5
    ensures forall i :: 0 <= i < |a| ==> !IsSeparator(a[i])
  {
  }

  lemma DateChars(a: string)
    requires a == "12252024"
    ensures Base64.IsLatin1(a) && |Lower(a)| == 8 && Lower(a)[1] == '2'
    ensures forall i :: 0 <= i < |a| ==> !IsSeparator(a[i])
  {
    assert a[1] == '2';
    assert Lower(a)[1] == LowerChar(a[1]);
  }

  /** `RISTORA`, `ristora`, `RiStOrA` and `  ristora  ` are all accepted for room 1. */
  lemma Room1SpellingsAccepted(w: string, pad: string)
    requires w == "RISTORA" || w == "ristora" || w == "RiStOrA"
    requires pad == "" || pad == "  "
    ensures Normalize(pad + w + pad) == "ristora" && Validate(1, pad + w + pad)
  {
    RistoraSpelling(w);
    assert AllSeparators(pad);
    PaddedSpellingAccepted(1, pad, w, pad);
  }

  lemma RistoraSpelling(w: string)
    requires w == "RISTORA" || w == "ristora" || w == "RiStOrA"
    ensures Lower(w) == "ristora" && Base64.IsLatin1(w)
  {
    if w == "RISTORA" { UpperRistora(w); }
    else if w == "ristora" { LowerRistora(w); }
    else { MixedRistora(w); }
  }

  lemma UpperRistora(w: string)
    requires w == "RISTORA"
    ensures Lower(w) == "ristora" && Base64.IsLatin1(w)
  {
    var t := "ristora";
    assert forall i :: 0 <= i < |w| ==> LowerChar(w[i]) == t[i];
    LowerPointwise(w, t);
  }

  lemma LowerRistora(w: string)
    requires w == "ristora"
    ensures Lower(w) == "ristora" && Base64.IsLatin1(w)
  {
  }

  lemma MixedRistora(w: string)
    requires w == "RiStOrA"
    ensures Lower(w) == "ristora" && Base64.IsLatin1(w)
  {
    var t := "ristora";
    assert forall i :: 0 <= i < |w| ==> LowerChar(w[i]) == t[i];
    LowerPointwise(w, t);
  }

  /** Lower-casing is fixed character by character. */
  lemma LowerPointwise(w: string, t: string)
    requires |w| == |t|
    requires forall i :: 0 <= i < |w| ==> LowerChar(w[i]) == t[i]
    ensures Lower(w) == t
  {
  }

  /**
   * The entry room 3 evidently intends: the letter tiles and the hint spell
   * FEBRUARY EIGHTH. Every other entry is unchanged.
   */
  function CorrectedPlainAnswer(room: int): (r: Option<string>)
  {
    if room == 3 then Some("februaryeighth") else PlainAnswer(room)
  }

  function CorrectedStored(room: int): (r: Option<string>)
  {
    if room == 4 then Some("i-love-you-im-sorry")
    else if CorrectedPlainAnswer(room).Some? then
      LatinPreserved(CorrectedPlainAnswer(room).value);
      Some(Hash(CorrectedPlainAnswer(room).value))
    else None
  }

  /** `validate` over the corrected table, which differs from the written one only in room 3. */
  function ValidateCorrected(room: int, answer: string): (r: bool)
    requires Base64.IsLatin1(Normalize(answer))
    ensures room != 3 ==> r == Validate(room, answer)
  {
    Matches(CorrectedStored(room), answer)
  }

  lemma CorrectedRoom3Normal()
    ensures IsNormal("februaryeighth") && Base64.IsLatin1("februaryeighth")
  {
    DigitsAndLettersNormal("februaryeighth");
  }

  /** `btoa('februaryeighth')` starts with 'Z', the sextet of the top bits of 'f'. */
  lemma EncodedCorrectedStartsUpper()
    ensures Base64.Encode("februaryeighth")[0] == 'Z'
  {
    assert Base64.EncodeGroup('f', 'e', 'b') == "ZmVi";
  }

  /** Over the corrected table, room 3 accepts exactly the answers normalising to `februaryeighth`. */
  lemma CorrectedRoom3Iff(answer: string)
    requires Base64.IsLatin1(Normalize(answer))
    ensures ValidateCorrected(3, answer) <==> Normalize(answer) == "februaryeighth"
  {
    var p := "februaryeighth";
    CorrectedRoom3Normal();
    HashOfNormal(p);
    EncodedCorrectedStartsUpper();
    MatchesEncoded(p, 0, answer);
  }
}
