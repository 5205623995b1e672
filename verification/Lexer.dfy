/** A reference lexer on code points, and the proof that the unit-by-unit scanner is it.
    Nothing here steps or skips: an emoji is the longest run of code points with the shape
    of one. */
module PointLexer {
  import opened SeqFacts
  import opened Utf16
  import opened EmojiTables
  import opened EmojiScanner

  // ----- the reference -----

  /** Modifiers, and joiners each with the code point it joins. */
  predicate IsTail(ps: Points) {
    if ps == [] then true
    else if IsModifier(ps[0]) then IsTail(ps[1..])
    else ps[0] == JOINER && |ps| > 1 && IsTail(ps[2..])
  }

  /** The shape of one emoji: a flag of one or two regional letters, or a start and a tail. */
  predicate IsEmoji(t: Tables, ps: Points) {
    && ps != []
    && Starts(t, ps[0], if |ps| > 1 then ps[1] else 0)
    && if IsRegional(ps[0]) then |ps| == 1 || (|ps| == 2 && IsRegional(ps[1]))
       else IsTail(ps[1..])
  }

  /** End of the longest emoji from `k` that ends at `e` or before; `k` when there is none. */
  function Longest(t: Tables, ps: Points, k: nat, e: nat): (end: nat)
    requires k <= e <= |ps|
    ensures k <= end <= e
    ensures k < end ==> IsEmoji(t, ps[k..end])
    ensures forall m :: end < m <= e ==> !IsEmoji(t, ps[k..m])
  {
    if e == k || IsEmoji(t, ps[k..e]) then e else Longest(t, ps, k, e - 1)
  }

  function WithoutSelectors(ps: Points): Points {
    if ps == [] then []
    else if ps[0] == SELECTOR then WithoutSelectors(ps[1..])
    else [ps[0]] + WithoutSelectors(ps[1..])
  }

  function WithoutTonePoints(ps: Points): Points {
    if ps == [] then []
    else if IsTone(ps[0]) then WithoutTonePoints(ps[1..])
    else [ps[0]] + WithoutTonePoints(ps[1..])
  }

  /** Picture of the emoji at `k` to `e`: as spelled, else without skin tones; none for a sign
      left bare, or one marked as text. */
  function PointPicture(t: Tables, ps: Points, k: nat, e: nat): Option<string>
    requires k < e <= |ps|
  {
    var bare := WithoutSelectors(ps[k..e]);
    var plain := WithoutTonePoints(bare);
    if Encode(bare) in t.textStyle && bare == ps[k..e] then None
    else if ps[k] < 0xD800 && e < |ps| && ps[e] == TEXT_SELECTOR then None
    else if Encode(bare) in t.byKey then Some(t.byKey[Encode(bare)])
    else if Encode(plain) in t.byKey then Some(t.byKey[Encode(plain)])
    else None
  }

  /** The emoji of `ps` from `k` on, by code point positions. */
  function PointCuts(t: Tables, ps: Points, styled: bool, inTag: bool, k: nat): seq<Cut>
    requires k <= |ps|
    decreases |ps| - k
  {
    if k == |ps| then []
    else if styled && (inTag || ps[k] == OPEN) then
      PointCuts(t, ps, styled, ps[k] != CLOSE, k + 1)
    else
      var e := if ps[k] < 0x23 then k else Longest(t, ps, k, |ps|);
      if e == k then PointCuts(t, ps, styled, inTag, k + 1)
      else
        (match PointPicture(t, ps, k, e)
         case Some(name) => [Cut(k, e, name)]
         case None => []) + PointCuts(t, ps, styled, inTag, e)
  }

  /** Where code point `k` starts in the units. */
  function Offset(ps: Points, k: nat): nat
    requires k <= |ps|
  {
    |Encode(ps[..k])|
  }

  function ToUnits(ps: Points, cuts: seq<Cut>): seq<Cut>
    requires forall c <- cuts :: c.start <= c.end <= |ps|
  {
    seq(|cuts|, i requires 0 <= i < |cuts| =>
      Cut(Offset(ps, cuts[i].start), Offset(ps, cuts[i].end), cuts[i].name))
  }

  // ----- offsets -----

  lemma OffsetNext(ps: Points, k: nat)
    requires k < |ps|
    ensures Offset(ps, k + 1) == Offset(ps, k) + |EncodePoint(ps[k])|
  {
    assert ps[..k + 1] == ps[..k] + [ps[k]];
    EncodeConcat(ps[..k], [ps[k]]);
    assert Encode([ps[k]]) == EncodePoint(ps[k]) + [];
  }

  lemma SuffixRead(u: Text, o: nat, p: Scalar, rest: Text)
    requires o <= |u| && u[o..] == EncodePoint(p) + rest
    ensures o + Width(p) <= |u| && CodeAt(u, o) == p
    ensures u[o] == EncodePoint(p)[0]
    ensures p > 0xFFFF ==> u[o + 1] == EncodePoint(p)[1]
  {
    var s := u[o..];
    CodeAtEncoded(p, rest);
    assert |u| == o + |s|;
    assert s[0] == u[o];
    assert o + 1 < |u| ==> s[1] == u[o + 1];
    assert CodeAt(u, o) == CodeAt(s, 0);
  }

  lemma OffsetStep(ps: Points, k: nat)
    requires k < |ps|
    ensures Offset(ps, k + 1) == Offset(ps, k) + Width(ps[k])
    ensures Offset(ps, k) + Width(ps[k]) <= |Encode(ps)|
    ensures CodeAt(Encode(ps), Offset(ps, k)) == ps[k]
    ensures Encode(ps)[Offset(ps, k)] == EncodePoint(ps[k])[0]
    ensures ps[k] > 0xFFFF ==> Encode(ps)[Offset(ps, k) + 1] == EncodePoint(ps[k])[1]
  {
    OffsetNext(ps, k);
    EncodeSplit(ps, k);
    SuffixRead(Encode(ps), Offset(ps, k), ps[k], Encode(ps[k..][1..]));
  }

  lemma OffsetWhole(ps: Points)
    ensures Offset(ps, |ps|) == |Encode(ps)|
    ensures Offset(ps, 0) == 0
  {
    assert ps[..|ps|] == ps;
  }

  /** The units between two offsets are the code points between, encoded. */
  lemma OffsetSlice(ps: Points, k: nat, e: nat)
    requires k <= e <= |ps|
    ensures Offset(ps, k) <= Offset(ps, e) <= |Encode(ps)|
    ensures Encode(ps)[Offset(ps, k)..Offset(ps, e)] == Encode(ps[k..e])
    ensures k < e ==> Offset(ps, k) < Offset(ps, e)
  {
    EncodeSplit(ps, e);
    EncodeSplit(ps[..e], k);
    assert ps[..e][..k] == ps[..k] && ps[..e][k..] == ps[k..e];
    EncodeNotEmpty(ps[k..e]);
    var u := Encode(ps);
    assert u[Offset(ps, k)..Offset(ps, e)] == u[..Offset(ps, e)][Offset(ps, k)..];
  }

  // ----- one emoji -----

  /** Where the longest tail from `k` on stops. */
  function PointTailEnd(ps: Points, k: nat): (e: nat)
    requires k <= |ps|
    ensures k <= e <= |ps|
    decreases |ps| - k
  {
    if k == |ps| then k
    else if IsModifier(ps[k]) then PointTailEnd(ps, k + 1)
    else if ps[k] == JOINER && k + 1 < |ps| then PointTailEnd(ps, k + 2)
    else k
  }

  /** It is a tail, and no longer run from `k` is one. */
  lemma {:induction false} TailIsLongest(ps: Points, k: nat)
    requires k <= |ps|
    ensures IsTail(ps[k..PointTailEnd(ps, k)])
    ensures forall m :: PointTailEnd(ps, k) < m <= |ps| ==> !IsTail(ps[k..m])
    decreases |ps| - k
  {
    if k == |ps| {
    } else {
      var step := if IsModifier(ps[k]) then 1 else 2;
      if IsModifier(ps[k]) || (ps[k] == JOINER && k + 1 < |ps|) {
        TailIsLongest(ps, k + step);
        forall m | k + step <= m <= |ps|
          ensures IsTail(ps[k..m]) == IsTail(ps[k + step..m])
        {
          assert ps[k..m][step..] == ps[k + step..m];
        }
        if step == 2 {
          assert !IsTail(ps[k..k + 1]);
        }
      } else {
        forall m | k < m <= |ps|
          ensures !IsTail(ps[k..m])
        {
          assert ps[k..m][0] == ps[k];
        }
      }
    }
  }

  /** The unit scanner's tail is the code point tail. */
  lemma {:induction false} TailRefines(ps: Points, k: nat)
    requires k <= |ps|
    ensures Offset(ps, k) <= |Encode(ps)|
    ensures TailEnd(Encode(ps), Offset(ps, k)) == Offset(ps, PointTailEnd(ps, k))
    decreases |ps| - k
  {
    OffsetWhole(ps);
    if k == |ps| {
    } else {
      OffsetStep(ps, k);
      if k + 1 < |ps| {
        OffsetStep(ps, k + 1);
      }
      if IsModifier(ps[k]) {
        TailRefines(ps, k + 1);
      } else if ps[k] == JOINER && k + 1 < |ps| {
        TailRefines(ps, k + 2);
      }
    }
  }

  /** The longest emoji, found by looking at two code points and then a tail. */
  lemma LongestByTail(t: Tables, ps: Points, k: nat)
    requires k < |ps|
    ensures var next := if k + 1 < |ps| then ps[k + 1] else 0;
            Longest(t, ps, k, |ps|)
            == if !Starts(t, ps[k], next) then k
               else if IsRegional(ps[k]) then (if IsRegional(next) then k + 2 else k + 1)
               else PointTailEnd(ps, k + 1)
  {
    var next := if k + 1 < |ps| then ps[k + 1] else 0;
    var end := Longest(t, ps, k, |ps|);
    TailIsLongest(ps, k + 1);
    forall m | k < m <= |ps|
      ensures IsEmoji(t, ps[k..m])
              == (Starts(t, ps[k], if m > k + 1 then next else 0)
                  && if IsRegional(ps[k]) then m == k + 1 || (m == k + 2 && IsRegional(next))
                     else IsTail(ps[k + 1..m]))
    {
      assert ps[k..m][1..] == ps[k + 1..m];
    }
    if Starts(t, ps[k], next) {
      var want := if IsRegional(ps[k]) then (if IsRegional(next) then k + 2 else k + 1)
                  else PointTailEnd(ps, k + 1);
      assert Starts(t, ps[k], if want > k + 1 then next else 0);
      assert IsEmoji(t, ps[k..want]);
    }
  }

  /** One emoji: the unit scanner ends it where the longest match on code points ends. */
  lemma EndRefines(t: Tables, ps: Points, k: nat)
    requires k < |ps|
    ensures Offset(ps, k) < |Encode(ps)|
    ensures EndOf(t, Encode(ps), Offset(ps, k)) == Offset(ps, Longest(t, ps, k, |ps|))
  {
    OffsetWhole(ps);
    OffsetStep(ps, k);
    if k + 1 < |ps| {
      OffsetStep(ps, k + 1);
    }
    TailRefines(ps, k + 1);
    LongestByTail(t, ps, k);
  }

  // ----- keys -----

  lemma {:induction false} KeyConcat(a: Text, b: Text)
    ensures Key(a + b) == Key(a) + Key(b)
  {
    if a == [] {
      ConcatNone(b);
    } else {
      KeyConcat(a[1..], b);
      ConcatFirst(a, b);
      Assoc([a[0]], Key(a[1..]), Key(b));
    }
  }

  lemma {:induction false} KeyRefines(ps: Points)
    ensures Key(Encode(ps)) == Encode(WithoutSelectors(ps))
  {
    if ps == [] {
    } else {
      KeyRefines(ps[1..]);
      var u := EncodePoint(ps[0]);
      KeyConcat(u, Encode(ps[1..]));
      if |u| == 2 {
        assert u[1..] == [u[1]] && Key(u[1..]) == [u[1]] + Key([]);
        assert u == [u[0], u[1]];
      }
      assert ps[0] != SELECTOR ==> Key(u) == u;
      assert ps[0] != SELECTOR ==> WithoutSelectors(ps)[1..] == WithoutSelectors(ps[1..]);
    }
  }

  lemma {:induction false} TonesRefine(ps: Points)
    ensures WithoutTones(Encode(ps)) == Encode(WithoutTonePoints(ps))
  {
    if ps == [] {
    } else {
      TonesRefine(ps[1..]);
      var p, rest := ps[0], Encode(ps[1..]);
      TonePoint(p, rest);
      if !IsTone(p) {
        ConsRest(p, WithoutTonePoints(ps[1..]));
      }
    }
  }

  lemma TonePoint(p: Scalar, rest: Text)
    ensures WithoutTones(EncodePoint(p) + rest)
            == if IsTone(p) then WithoutTones(rest) else EncodePoint(p) + WithoutTones(rest)
  {
    var u := EncodePoint(p);
    var s := u + rest;
    if |u| == 1 {
      ConsRest(u[0], rest);
    } else {
      ConsRest(u[0], [u[1]] + rest);
      ConsRest(u[1], rest);
      assert s == [u[0]] + ([u[1]] + rest);
      assert s[2..] == rest;
      assert ToneFirst(s) == IsTone(p);
      assert !ToneFirst([u[1]] + rest);
      Assoc([u[0]], [u[1]], WithoutTones(rest));
    }
  }

  /** Bare and untoned spelling of an emoji, on units and on code points. */
  lemma NamesRefine(emoji: Points)
    ensures Key(Encode(emoji)) == Encode(WithoutSelectors(emoji))
    ensures Untoned(Encode(emoji)) == Encode(WithoutTonePoints(WithoutSelectors(emoji)))
    ensures Key(Encode(emoji)) == Encode(emoji) <==> WithoutSelectors(emoji) == emoji
  {
    KeyRefines(emoji);
    TonesRefine(WithoutSelectors(emoji));
    if Encode(WithoutSelectors(emoji)) == Encode(emoji) {
      EncodeInjective(WithoutSelectors(emoji), emoji);
    }
  }

  /** A code point other than a surrogate's is seen as such among the units. */
  lemma UnitAtOffset(ps: Points, k: nat)
    requires k <= |ps|
    ensures Offset(ps, k) <= |Encode(ps)|
    ensures Offset(ps, k) < |Encode(ps)| <==> k < |ps|
    ensures k < |ps| ==> (Encode(ps)[Offset(ps, k)] == TEXT_SELECTOR <==> ps[k] == TEXT_SELECTOR)
    ensures k < |ps| ==> (Encode(ps)[Offset(ps, k)] < 0xD800 <==> ps[k] < 0xD800)
  {
    OffsetWhole(ps);
    if k < |ps| {
      OffsetStep(ps, k);
    }
  }

  lemma DrawableRefines(t: Tables, ps: Points, k: nat, e: nat)
    requires k < e <= |ps|
    ensures Offset(ps, k) < Offset(ps, e) <= |Encode(ps)|
    ensures Drawable(t, Encode(ps), Offset(ps, k), Offset(ps, e)) == PointPicture(t, ps, k, e)
  {
    OffsetSlice(ps, k, e);
    UnitAtOffset(ps, k);
    UnitAtOffset(ps, e);
    var emoji := ps[k..e];
    NamesRefine(emoji);
    var u := Encode(ps)[Offset(ps, k)..Offset(ps, e)];
    assert u == Encode(emoji);
    assert Lookup(t, u) == if Encode(WithoutSelectors(emoji)) in t.byKey
      then Some(t.byKey[Encode(WithoutSelectors(emoji))])
      else if Untoned(u) in t.byKey then Some(t.byKey[Untoned(u)]) else None;
  }

  // ----- the whole message -----

  /** No emoji here: one unit on. */
  lemma ScanOne(t: Tables, u: Text, styled: bool, inTag: bool, o: nat)
    requires o < |u| && !(styled && (inTag || u[o] == OPEN))
    requires u[o] < 0x23 || EndOf(t, u, o) == o
    ensures Scan(t, u, styled, inTag, o) == Scan(t, u, styled, inTag, o + 1)
  {
  }

  /** The scanner passes over both halves of a pair it draws nothing for. */
  lemma ScanOver(t: Tables, ps: Points, styled: bool, inTag: bool, k: nat)
    requires WholeStarts(t) && k < |ps|
    requires !(styled && (inTag || ps[k] == OPEN))
    requires ps[k] < 0x23 || Longest(t, ps, k, |ps|) == k
    ensures Offset(ps, k + 1) <= |Encode(ps)| && Offset(ps, k) <= |Encode(ps)|
    ensures Scan(t, Encode(ps), styled, inTag, Offset(ps, k))
            == Scan(t, Encode(ps), styled, inTag, Offset(ps, k + 1))
  {
    var u, o := Encode(ps), Offset(ps, k);
    OffsetStep(ps, k);
    EndRefines(t, ps, k);
    ScanOne(t, u, styled, inTag, o);
    if ps[k] > 0xFFFF {
      assert IsLow(u[o + 1]) && CodeAt(u, o + 1) == u[o + 1];
      assert EndOf(t, u, o + 1) == o + 1;
      ScanOne(t, u, styled, inTag, o + 1);
    }
  }

  /** Inside a tag it passes over both halves as well. */
  lemma ScanTagOver(t: Tables, ps: Points, inTag: bool, k: nat)
    requires k < |ps| && (inTag || ps[k] == OPEN)
    ensures Offset(ps, k + 1) <= |Encode(ps)| && Offset(ps, k) <= |Encode(ps)|
    ensures Scan(t, Encode(ps), true, inTag, Offset(ps, k))
            == Scan(t, Encode(ps), true, ps[k] != CLOSE, Offset(ps, k + 1))
  {
    var u, o := Encode(ps), Offset(ps, k);
    OffsetStep(ps, k);
    if ps[k] > 0xFFFF {
      assert Scan(t, u, true, inTag, o) == Scan(t, u, true, true, o + 1);
      assert IsLow(u[o + 1]);
    }
  }

  lemma ToUnitsConcat(ps: Points, a: seq<Cut>, b: seq<Cut>)
    requires forall c <- a + b :: c.start <= c.end <= |ps|
    ensures forall c <- a :: c in a + b
    ensures forall c <- b :: c in a + b
    ensures ToUnits(ps, a + b) == ToUnits(ps, a) + ToUnits(ps, b)
  {
  }

  /** Where an emoji is tried: its cut, then the rest. */
  lemma ScanHere(t: Tables, ps: Points, styled: bool, inTag: bool, k: nat, e: nat)
    requires WholeStarts(t) && k < e <= |ps| && e == Longest(t, ps, k, |ps|) && ps[k] >= 0x23
    requires !(styled && (inTag || ps[k] == OPEN))
    requires forall c <- PointCuts(t, ps, styled, inTag, e) :: c.start < c.end <= |ps|
    requires Offset(ps, e) <= |Encode(ps)|
    requires Scan(t, Encode(ps), styled, inTag, Offset(ps, e))
             == ToUnits(ps, PointCuts(t, ps, styled, inTag, e))
    ensures Offset(ps, k) <= |Encode(ps)|
    ensures forall c <- PointCuts(t, ps, styled, inTag, k) :: c.start < c.end <= |ps|
    ensures Scan(t, Encode(ps), styled, inTag, Offset(ps, k))
            == ToUnits(ps, PointCuts(t, ps, styled, inTag, k))
  {
    EndRefines(t, ps, k);
    OffsetStep(ps, k);
    DrawableRefines(t, ps, k, e);
    var here := match PointPicture(t, ps, k, e)
                case Some(name) => [Cut(k, e, name)]
                case None => [];
    ToUnitsConcat(ps, here, PointCuts(t, ps, styled, inTag, e));
    assert ToUnits(ps, here) == CutHere(t, Encode(ps), Offset(ps, k), Offset(ps, e));
  }

  lemma {:induction false} ScanRefines(t: Tables, ps: Points, styled: bool, inTag: bool, k: nat)
    requires WholeStarts(t) && k <= |ps|
    ensures Offset(ps, k) <= |Encode(ps)|
    ensures forall c <- PointCuts(t, ps, styled, inTag, k) :: c.start < c.end <= |ps|
    ensures Scan(t, Encode(ps), styled, inTag, Offset(ps, k))
            == ToUnits(ps, PointCuts(t, ps, styled, inTag, k))
    decreases |ps| - k
  {
    if k == |ps| {
      OffsetWhole(ps);
    } else if styled && (inTag || ps[k] == OPEN) {
      ScanTagOver(t, ps, inTag, k);
      ScanRefines(t, ps, styled, ps[k] != CLOSE, k + 1);
    } else {
      var e := if ps[k] < 0x23 then k else Longest(t, ps, k, |ps|);
      if e == k {
        ScanOver(t, ps, styled, inTag, k);
        ScanRefines(t, ps, styled, inTag, k + 1);
      } else {
        ScanRefines(t, ps, styled, inTag, e);
        ScanHere(t, ps, styled, inTag, k, e);
      }
    }
  }

  /** On the encoding of any code points, the scan that steps unit by unit finds exactly the
      emoji the code point lexer finds, at their unit offsets. */
  lemma ScannerIsLexer(t: Tables, ps: Points, styled: bool)
    requires WholeStarts(t)
    ensures forall c <- PointCuts(t, ps, styled, false, 0) :: c.start < c.end <= |ps|
    ensures Scan(t, Encode(ps), styled, false, 0)
            == ToUnits(ps, PointCuts(t, ps, styled, false, 0))
  {
    OffsetWhole(ps);
    ScanRefines(t, ps, styled, false, 0);
  }
}
