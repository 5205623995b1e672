/** The character class as it stands in EmojiPictures.js, and how a regular expression reads it. */
module ClassText {
  import opened SeqFacts
  import opened Utf16
  import opened EmojiTables

  // ----- written -----

  function Digit(d: nat): char
    requires d < 16
  {
    "0123456789ABCDEF"[d]
  }

  /** Python's `"\\u%04X"`. */
  function Spelled(u: Unit): string {
    ['\\', 'u', Digit(u / 0x1000), Digit(u / 0x100 % 0x10), Digit(u / 0x10 % 0x10), Digit(u % 0x10)]
  }

  function Part(r: Range): string {
    if r.lo == r.hi then Spelled(r.lo) else Spelled(r.lo) + "-" + Spelled(r.hi)
  }

  function Parts(ranges: seq<Range>): string {
    if ranges == [] then [] else Part(ranges[0]) + Parts(ranges[1..])
  }

  function Written(ranges: seq<Range>): string {
    "[" + Parts(ranges) + "]"
  }

  // ----- read -----

  function Value(c: char): Option<nat> {
    if '0' <= c <= '9' then Some((c - '0') as nat)
    else if 'A' <= c <= 'F' then Some((c - 'A') as nat + 10)
    else if 'a' <= c <= 'f' then Some((c - 'a') as nat + 10)
    else None
  }

  /** The number four hexadecimal digits stand for. */
  function HexValue(s: string): Option<Unit>
    requires |s| == 4
  {
    match (Value(s[0]), Value(s[1]), Value(s[2]), Value(s[3]))
    case (Some(a), Some(b), Some(c), Some(d)) =>
      if a < 16 && b < 16 && c < 16 && d < 16 then Some(((a * 16 + b) * 16 + c) * 16 + d) else None
    case _ => None
  }

  /** The escape a class goes on with (section 7.8.4 of ECMA-262, edition 5.1). */
  function ReadEscape(s: string): Option<Unit> {
    if |s| >= 6 && s[0] == '\\' && s[1] == 'u' then HexValue(s[2..6]) else None
  }

  /** Whether a hyphen and another escape come first, which makes a range. */
  predicate RangeGoesOn(s: string) {
    s != [] && s[0] == '-' && ReadEscape(s[1..]).Some?
  }

  /** The ranges of a class of such escapes, up to its bracket (section 15.10.2.15); none where
      one has its ends the wrong way round, which is a syntax error. */
  function ReadRanges(s: string): Option<seq<Range>>
    decreases |s|
  {
    if s == "]" then Some([])
    else
      match ReadEscape(s)
      case None => None
      case Some(lo) =>
        var ranged := RangeGoesOn(s[6..]);
        var hi := if ranged then ReadEscape(s[6..][1..]).value else lo;
        match ReadRanges(if ranged then s[13..] else s[6..])
        case None => None
        case Some(rest) => if lo <= hi then Some([Range(lo, hi)] + rest) else None
  }

  function ReadClass(s: string): Option<seq<Range>> {
    if s != [] && s[0] == '[' then ReadRanges(s[1..]) else None
  }

  // ----- what is written is read -----

  lemma ValueOfDigit(d: nat)
    requires d < 16
    ensures Value(Digit(d)) == Some(d)
  {
  }

  lemma DigitsMakeUnit(u: Unit)
    ensures u == ((u / 0x1000 * 16 + u / 0x100 % 0x10) * 16 + u / 0x10 % 0x10) * 16 + u % 0x10
  {
    assert u / 0x10 / 0x10 == u / 0x100 && u / 0x100 / 0x10 == u / 0x1000;
  }

  lemma HexReads(a: nat, b: nat, c: nat, d: nat)
    requires a < 16 && b < 16 && c < 16 && d < 16
    ensures HexValue([Digit(a), Digit(b), Digit(c), Digit(d)]) == Some(((a * 16 + b) * 16 + c) * 16 + d)
  {
    ValueOfDigit(a);
    ValueOfDigit(b);
    ValueOfDigit(c);
    ValueOfDigit(d);
  }

  lemma EscapeReads(u: Unit, rest: string)
    ensures ReadEscape(Spelled(u) + rest) == Some(u)
    ensures (Spelled(u) + rest)[6..] == rest
  {
    var a, b, c, d := u / 0x1000, u / 0x100 % 0x10, u / 0x10 % 0x10, u % 0x10;
    DigitsMakeUnit(u);
    HexReads(a, b, c, d);
    assert (Spelled(u) + rest)[2..6] == [Digit(a), Digit(b), Digit(c), Digit(d)];
  }

  lemma PartReads(r: Range, rest: string)
    requires r.lo <= r.hi && !RangeGoesOn(rest) && rest != []
    ensures ReadRanges(Part(r) + rest)
            == match ReadRanges(rest)
               case None => None
               case Some(ranges) => Some([r] + ranges)
  {
    var s := Part(r) + rest;
    if r.lo == r.hi {
      EscapeReads(r.lo, rest);
    } else {
      var more := "-" + (Spelled(r.hi) + rest);
      assert s == Spelled(r.lo) + more;
      EscapeReads(r.lo, more);
      ConsRest('-', Spelled(r.hi) + rest);
      EscapeReads(r.hi, rest);
      assert s[13..] == s[6..][1..][6..];
    }
  }

  lemma PartFirst(r: Range, rest: string)
    ensures Part(r) + rest != [] && !RangeGoesOn(Part(r) + rest)
  {
    assert (Part(r) + rest)[0] == Part(r)[0] == '\\';
  }

  lemma PartsStep(ranges: seq<Range>)
    requires ranges != []
    ensures Parts(ranges) + "]" == Part(ranges[0]) + (Parts(ranges[1..]) + "]")
  {
    Assoc(Part(ranges[0]), Parts(ranges[1..]), "]");
  }

  lemma {:induction false} PartsRead(ranges: seq<Range>)
    requires forall r <- ranges :: r.lo <= r.hi
    ensures ReadRanges(Parts(ranges) + "]") == Some(ranges)
    ensures !RangeGoesOn(Parts(ranges) + "]")
  {
    if ranges == [] {
      ConcatNone("]");
    } else {
      var rest := Parts(ranges[1..]) + "]";
      assert forall r <- ranges[1..] :: r in ranges;
      PartsRead(ranges[1..]);
      PartsStep(ranges);
      PartReads(ranges[0], rest);
      PartFirst(ranges[0], rest);
      assert [ranges[0]] + ranges[1..] == ranges;
    }
  }

  /** The expression reads exactly the ranges that were written. */
  lemma WrittenReads(ranges: seq<Range>)
    requires forall r <- ranges :: r.lo <= r.hi
    ensures ReadClass(Written(ranges)) == Some(ranges)
  {
    PartsRead(ranges);
    assert Written(ranges) == "[" + (Parts(ranges) + "]");
    ConsRest('[', Parts(ranges) + "]");
  }
}
