/** The string functions of JavaScript the application calls, on code units. */
module JsText {
  import opened Utf16

  /** White space and line ends (sections 7.2 and 7.3 of ECMA-262, edition 5.1). */
  predicate IsWhite(u: Unit) {
    0x09 <= u <= 0x0D || u == 0x20 || u == 0xA0 || u == 0x1680 || u == 0x180E
    || 0x2000 <= u <= 0x200A || u == 0x2028 || u == 0x2029 || u == 0x202F || u == 0x205F
    || u == 0x3000 || u == 0xFEFF
  }

  predicate AllWhite(s: Text) {
    forall u <- s :: IsWhite(u)
  }

  function TrimStart(s: Text): (r: Text)
    ensures r != [] ==> !IsWhite(r[0])
  {
    if s != [] && IsWhite(s[0]) then TrimStart(s[1..]) else s
  }

  function TrimEnd(s: Text): (r: Text)
    ensures r <= s
    ensures r != [] ==> !IsWhite(r[|r| - 1])
  {
    if s != [] && IsWhite(s[|s| - 1]) then TrimEnd(s[..|s| - 1]) else s
  }

  function Trim(s: Text): (r: Text)
    ensures r != [] ==> !IsWhite(r[0]) && !IsWhite(r[|r| - 1])
  {
    TrimEnd(TrimStart(s))
  }

  predicate OccursAt(s: Text, term: Text, p: nat)
    ensures OccursAt(s, term, p) ==> p + |term| <= |s|
    decreases term
  {
    if term == [] then p <= |s|
    else p < |s| && s[p] == term[0] && OccursAt(s, term[1..], p + 1)
  }

  /** First occurrence of `term` at `from` or later, or -1. */
  function IndexOf(s: Text, term: Text, from: nat): (at: int)
    requires from <= |s|
    ensures at == -1 || (at >= from && OccursAt(s, term, at))
    decreases |s| - from
  {
    if OccursAt(s, term, from) then from
    else if from == |s| then -1
    else IndexOf(s, term, from + 1)
  }

  lemma {:induction false} IndexIsFirst(s: Text, term: Text, from: nat, p: nat)
    requires from <= p && OccursAt(s, term, p)
    ensures from <= |s| && 0 <= IndexOf(s, term, from) <= p
    decreases |s| - from
  {
    if OccursAt(s, term, from) {
    } else {
      IndexIsFirst(s, term, from + 1, p);
    }
  }

  lemma {:induction false} TrimStartDrops(s: Text) returns (a: Text)
    ensures s == a + TrimStart(s) && AllWhite(a)
  {
    if s == [] || !IsWhite(s[0]) {
      a := [];
    } else {
      a := TrimStartDrops(s[1..]);
      a := [s[0]] + a;
    }
  }

  lemma {:induction false} TrimEndDrops(s: Text) returns (b: Text)
    ensures s == TrimEnd(s) + b && AllWhite(b)
  {
    if s == [] || !IsWhite(s[|s| - 1]) {
      b := [];
    } else {
      b := TrimEndDrops(s[..|s| - 1]);
      b := b + [s[|s| - 1]];
    }
  }

  /** Trimming drops white space, all of it at either end, and nothing else. */
  lemma TrimDrops(s: Text) returns (a: Text, b: Text)
    ensures s == a + Trim(s) + b && AllWhite(a) && AllWhite(b)
    ensures Trim(s) != [] ==> !IsWhite(Trim(s)[0]) && !IsWhite(Trim(s)[|Trim(s)| - 1])
  {
    a := TrimStartDrops(s);
    b := TrimEndDrops(TrimStart(s));
    assert a + (Trim(s) + b) == a + Trim(s) + b;
  }

  /** An occurrence is a slice equal to the term. */
  lemma {:induction false} OccursIsSlice(s: Text, term: Text, p: nat)
    ensures OccursAt(s, term, p) <==> p + |term| <= |s| && s[p..p + |term|] == term
    decreases |term|
  {
    if term == [] {
    } else if p + |term| <= |s| {
      OccursIsSlice(s, term[1..], p + 1);
      assert s[p..p + |term|] == [s[p]] + s[p + 1..p + |term|];
      assert term == [term[0]] + term[1..];
    }
  }
}
