/** UTF-16 text as JavaScript and the table generator see it: a string is a sequence of
    16-bit code units, and a pair of surrogate units stands for one code point above U+FFFF
    (section 2 of RFC 2781). */
module Utf16 {
  import opened SeqFacts

  type Unit = u: int | 0 <= u < 0x10000
  type Text = seq<Unit>

  /** A Unicode scalar value: any code point that is not a surrogate. */
  type Scalar = p: int | 0 <= p < 0xD800 || 0xE000 <= p < 0x110000
  type Points = seq<Scalar>

  predicate IsHigh(u: int) {
    0xD800 <= u <= 0xDBFF
  }

  predicate IsLow(u: int) {
    0xDC00 <= u <= 0xDFFF
  }

  /** What unit `i` starts: both halves read as one where a high one meets a low one, else the
      unit alone. */
  function CodeAt(text: Text, i: nat): int
    requires i < |text|
  {
    var high: int := text[i];
    var low: int := if i + 1 < |text| then text[i + 1] else 0;
    if IsHigh(high) && IsLow(low) then (high - 0xD800) * 0x400 + (low - 0xDC00) + 0x10000
    else high
  }

  /** How many units a code point takes. */
  function Width(point: int): nat {
    if point > 0xFFFF then 2 else 1
  }

  function EncodePoint(p: Scalar): Text {
    if p < 0x10000 then [p]
    else [0xD800 + (p - 0x10000) / 0x400, 0xDC00 + (p - 0x10000) % 0x400]
  }

  function Encode(ps: Points): Text {
    if ps == [] then [] else EncodePoint(ps[0]) + Encode(ps[1..])
  }

  /** A cut of `text` before unit `e` would leave half a pair on either side. */
  predicate SplitsPair(text: Text, e: nat) {
    0 < e < |text| && IsHigh(text[e - 1]) && IsLow(text[e])
  }

  /** Reading back what was encoded: `CodeAt` inverts `EncodePoint`, whatever follows. */
  lemma CodeAtEncoded(p: Scalar, rest: Text)
    ensures CodeAt(EncodePoint(p) + rest, 0) == p
    ensures |EncodePoint(p)| == Width(p)
    ensures !IsLow(EncodePoint(p)[0])
  {
    var s := EncodePoint(p) + rest;
    if p < 0x10000 {
      assert s[0] == p;
    } else {
      assert s[0] == 0xD800 + (p - 0x10000) / 0x400 && s[1] == 0xDC00 + (p - 0x10000) % 0x400;
    }
  }

  /** Whatever the units: a high half before a low one is read with it, and any other unit is
      read as it is. */
  lemma CodeAtByNumber(text: Text, i: nat)
    requires i < |text|
    ensures CodeAt(text, i)
            == if 0xD800 <= text[i] < 0xDC00 && i + 1 < |text| && 0xDC00 <= text[i + 1] < 0xE000
               then (text[i] as int - 0xD800) * 0x400 + (text[i + 1] as int - 0xDC00) + 0x10000
               else text[i]
  {
  }

  /** And the other way: two units read as one point are that point's encoding. */
  lemma EncodedCodeAt(text: Text, i: nat)
    requires i < |text| && CodeAt(text, i) > 0xFFFF
    ensures i + 1 < |text| && CodeAt(text, i) < 0x110000
    ensures EncodePoint(CodeAt(text, i)) == text[i..i + 2]
  {
    var low := text[i + 1] - 0xDC00;
    assert (CodeAt(text, i) - 0x10000) / 0x400 == text[i] - 0xD800;
    assert text[i..i + 2] == [text[i], text[i + 1]];
  }

  lemma {:induction false} EncodeConcat(a: Points, b: Points)
    ensures Encode(a + b) == Encode(a) + Encode(b)
  {
    if a == [] {
      ConcatNone(b);
      ConcatNone(Encode(b));
    } else {
      EncodeConcat(a[1..], b);
      ConcatFirst(a, b);
      Assoc(EncodePoint(a[0]), Encode(a[1..]), Encode(b));
    }
  }

  /** Different code point strings have different units, so tables keyed by units are keyed
      by strings. */
  lemma {:induction false} EncodeInjective(a: Points, b: Points)
    requires Encode(a) == Encode(b)
    ensures a == b
  {
    if a == [] || b == [] {
      if a != [] {
        CodeAtEncoded(a[0], Encode(a[1..]));
      }
      if b != [] {
        CodeAtEncoded(b[0], Encode(b[1..]));
      }
    } else {
      CodeAtEncoded(a[0], Encode(a[1..]));
      CodeAtEncoded(b[0], Encode(b[1..]));
      var w := Width(a[0]);
      assert Encode(a[1..]) == Encode(a)[w..] == Encode(b)[w..] == Encode(b[1..]);
      EncodeInjective(a[1..], b[1..]);
    }
  }

  /** Encoding a prefix, and what is left of the units after it. */
  lemma EncodeSplit(ps: Points, n: nat)
    requires n <= |ps|
    ensures Encode(ps) == Encode(ps[..n]) + Encode(ps[n..])
    ensures Encode(ps)[|Encode(ps[..n])|..] == Encode(ps[n..])
    ensures Encode(ps)[..|Encode(ps[..n])|] == Encode(ps[..n])
  {
    assert ps == ps[..n] + ps[n..];
    EncodeConcat(ps[..n], ps[n..]);
  }

  lemma {:induction false} EncodeNotEmpty(ps: Points)
    ensures |Encode(ps)| >= |ps|
  {
    if ps == [] {
    } else {
      CodeAtEncoded(ps[0], Encode(ps[1..]));
      EncodeNotEmpty(ps[1..]);
    }
  }
}
