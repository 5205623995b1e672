/** Where an emoji ends, by the numbers of Unicode: the ranges are written out here, apart from
    the scanner and the reference lexer. */
module EmojiShape {
  import opened SeqFacts
  import opened Utf16
  import opened EmojiTables
  import opened EmojiScanner
  import opened PointLexer

  /** What may follow an emoji's first code point: one that belongs to it, or a join. */
  datatype Part = Sign(p: Scalar) | Join(q: Scalar)

  /** Variation selector, keycap mark, skin tones, tag characters. */
  predicate IsMark(p: int) {
    p == 0xFE0F || p == 0x20E3 || 0x1F3FB <= p <= 0x1F3FF || 0xE0020 <= p <= 0xE007F
  }

  predicate AreParts(parts: seq<Part>) {
    forall part <- parts :: part.Sign? ==> IsMark(part.p)
  }

  /** The code points of the parts; a join is U+200D and any other. */
  function PartPoints(parts: seq<Part>): Points {
    if parts == [] then []
    else (match parts[0]
          case Sign(p) => [p]
          case Join(q) => [0x200D, q]) + PartPoints(parts[1..])
  }

  /** Another part comes first; a joiner that ends the text joins nothing. */
  predicate GoesOn(rest: Points) {
    rest != [] && (IsMark(rest[0]) || (rest[0] == 0x200D && |rest| > 1))
  }

  /** The first code points an emoji may have, by what follows them. */
  predicate Accepted(t: Tables, p: int, after: Points) {
    || 0x1F000 <= p <= 0x1FAFF
    || (0 <= p <= 0xFFFF && p in t.bmpStarts
        && (p >= 0xA9 || (after != [] && (after[0] == 0xFE0F || after[0] == 0x20E3))))
  }

  predicate IsLetter(p: int) {
    0x1F1E6 <= p <= 0x1F1FF
  }

  lemma {:induction false} PartsTaken(ps: Points, k: nat, parts: seq<Part>, rest: Points)
    requires k <= |ps| && AreParts(parts) && ps[k..] == PartPoints(parts) + rest
    ensures k + |PartPoints(parts)| <= PointTailEnd(ps, k)
    ensures PointTailEnd(ps, k) == k + |PartPoints(parts)| <==> !GoesOn(rest)
    decreases |parts|
  {
    if parts == [] {
      ConcatNone(rest);
      assert |ps| == k + |rest| && forall i :: 0 <= i < |rest| ==> ps[k + i] == rest[i];
    } else {
      assert AreParts(parts[1..]) by {
        assert forall part <- parts[1..] :: part in parts;
      }
      assert parts[0] in parts;
      PartTaken(ps, k, parts, rest);
      PartsTaken(ps, k + (if parts[0].Sign? then 1 else 2), parts[1..], rest);
    }
  }

  lemma PartTaken(ps: Points, k: nat, parts: seq<Part>, rest: Points)
    requires k <= |ps| && parts != [] && ps[k..] == PartPoints(parts) + rest
    requires parts[0].Sign? ==> IsMark(parts[0].p)
    ensures var n := if parts[0].Sign? then 1 else 2;
            && k + n <= |ps| && ps[k + n..] == PartPoints(parts[1..]) + rest
            && |PartPoints(parts)| == n + |PartPoints(parts[1..])|
            && PointTailEnd(ps, k) == PointTailEnd(ps, k + n)
  {
    var head: Points := match parts[0] case Sign(p) => [p] case Join(q) => [0x200D, q];
    var more := PartPoints(parts[1..]) + rest;
    Assoc(head, PartPoints(parts[1..]), rest);
    assert ps[k..] == head + more;
    assert |ps| == k + |head| + |more| && forall i :: 0 <= i < |head| ==> ps[k + i] == head[i];
    assert ps[k + |head|..] == ps[k..][|head|..] == more;
  }

  /** Where a code point stands in a text, and what follows it. */
  lemma PointAt(before: Points, p: Scalar, after: Points)
    ensures var ps := before + [p] + after;
            && ps[|before|] == p && ps[|before| + 1..] == after && ps[..|before|] == before
            && (after != [] ==> ps[|before| + 1] == after[0])
  {
  }

  lemma OffsetOf(before: Points, emoji: Points, rest: Points)
    ensures var ps := before + emoji + rest;
            && Offset(ps, |before|) == |Encode(before)|
            && Offset(ps, |before| + |emoji|) == |Encode(before)| + |Encode(emoji)|
  {
    var ps := before + emoji + rest;
    assert ps[..|before|] == before && ps[..|before| + |emoji|] == before + emoji;
    EncodeConcat(before, emoji);
  }

  /** Different places are at different offsets. */
  lemma OffsetsDiffer(ps: Points, j: nat, k: nat)
    requires j <= |ps| && k <= |ps|
    ensures Offset(ps, j) == Offset(ps, k) <==> j == k
  {
    if j < k {
      OffsetSlice(ps, j, k);
    } else if k < j {
      OffsetSlice(ps, k, j);
    }
  }

  /** Anywhere in a text: an accepted start, no regional letter, is taken with its parts, all of
      them, and with no more, exactly where none follows. */
  lemma EmojiEndsAfterParts(t: Tables, before: Points, p: Scalar, parts: seq<Part>, rest: Points)
    requires AreParts(parts) && !IsLetter(p) && Accepted(t, p, PartPoints(parts) + rest)
    ensures var emoji := [p] + PartPoints(parts);
            var text, i := Encode(before + emoji + rest), |Encode(before)|;
            && i < |text|
            && (EndOf(t, text, i) == i + |Encode(emoji)| <==> !GoesOn(rest))
  {
    var emoji, after := [p] + PartPoints(parts), PartPoints(parts) + rest;
    var ps, k := before + emoji + rest, |before|;
    assert ps == before + [p] + after;
    PointAt(before, p, after);
    EndRefines(t, ps, k);
    LongestByTail(t, ps, k);
    PartsTaken(ps, k + 1, parts, rest);
    OffsetOf(before, emoji, rest);
    OffsetsDiffer(ps, PointTailEnd(ps, k + 1), k + |emoji|);
  }

  /** Whatever follows a start is such parts, and then no more of them. */
  lemma {:induction false} PartsOf(after: Points) returns (parts: seq<Part>, rest: Points)
    ensures AreParts(parts) && after == PartPoints(parts) + rest && !GoesOn(rest)
    decreases |after|
  {
    if !GoesOn(after) {
      parts, rest := [], after;
    } else {
      var n := if IsMark(after[0]) then 1 else 2;
      var part := if IsMark(after[0]) then Sign(after[0]) else Join(after[1]);
      var more;
      more, rest := PartsOf(after[n..]);
      parts := [part] + more;
      ConsRest(part, more);
      assert after == after[..n] + after[n..];
    }
  }

  /** A regional letter is taken with the letter after it, two units each, or alone. */
  lemma FlagEnds(t: Tables, before: Points, p: Scalar, rest: Points)
    requires IsLetter(p)
    ensures var text, i := Encode(before + [p] + rest), |Encode(before)|;
            && i < |text|
            && EndOf(t, text, i) == i + if rest != [] && IsLetter(rest[0]) then 4 else 2
  {
    var ps, k := before + [p] + rest, |before|;
    PointAt(before, p, rest);
    EndRefines(t, ps, k);
    LongestByTail(t, ps, k);
    OffsetOf(before, [p], rest);
    OffsetStep(ps, k);
    if rest != [] {
      OffsetStep(ps, k + 1);
    }
  }

  /** No other code point starts an emoji. */
  lemma NotAccepted(t: Tables, before: Points, p: Scalar, rest: Points)
    ensures var text, i := Encode(before + [p] + rest), |Encode(before)|;
            && i < |text|
            && (EndOf(t, text, i) == i <==> !Accepted(t, p, rest))
  {
    var ps, k := before + [p] + rest, |before|;
    PointAt(before, p, rest);
    EndRefines(t, ps, k);
    LongestByTail(t, ps, k);
    OffsetOf(before, [p], rest);
    OffsetsDiffer(ps, Longest(t, ps, k, |ps|), k);
  }
}
