/** Facts about sequences the solver is better told than left to find. */
module SeqFacts {

  lemma ConcatFirst<T>(a: seq<T>, b: seq<T>)
    requires a != []
    ensures (a + b)[0] == a[0] && (a + b)[1..] == a[1..] + b
  {
  }

  lemma ConcatNone<T>(b: seq<T>)
    ensures [] + b == b && b + [] == b
  {
  }

  lemma Assoc<T>(a: seq<T>, b: seq<T>, c: seq<T>)
    ensures a + (b + c) == (a + b) + c
  {
  }

  lemma ConsRest<T>(x: T, rest: seq<T>)
    ensures ([x] + rest)[0] == x && ([x] + rest)[1..] == rest
  {
  }

  lemma SplitThree<T>(s: seq<T>, i: nat, j: nat, k: nat)
    requires i <= j <= k <= |s|
    ensures s[i..] == s[i..j] + (s[j..k] + s[k..])
  {
  }

  /** Runs from the `k`th on, with one thing between any two. */
  function Woven<T>(runs: seq<seq<T>>, between: seq<seq<T>>, k: nat): seq<T>
    requires |runs| == |between| + 1 && k <= |between|
    decreases |between| - k
  {
    if k == |between| then runs[k] else runs[k] + between[k] + Woven(runs, between, k + 1)
  }

  lemma {:induction false} WovenShift<T>(run: seq<T>, runs: seq<seq<T>>, thing: seq<T>, between: seq<seq<T>>, k: nat)
    requires |runs| == |between| + 1 && k <= |between|
    ensures Woven([run] + runs, [thing] + between, k + 1) == Woven(runs, between, k)
    decreases |between| - k
  {
    var runs', between' := [run] + runs, [thing] + between;
    assert runs'[k + 1] == runs[k];
    if k == |between| {
    } else {
      assert between'[k + 1] == between[k];
      WovenShift(run, runs, thing, between, k + 1);
    }
  }

  lemma WovenFirst<T>(run: seq<T>, runs: seq<seq<T>>, thing: seq<T>, between: seq<seq<T>>)
    requires |runs| == |between| + 1
    ensures Woven([run] + runs, [thing] + between, 0) == run + thing + Woven(runs, between, 0)
  {
    WovenShift(run, runs, thing, between, 0);
  }

  /** The first `k` runs, each with what comes after it. */
  function Laid<T>(runs: seq<seq<T>>, between: seq<seq<T>>, k: nat): seq<T>
    requires |runs| == |between| + 1 && k <= |between|
  {
    if k == 0 then [] else Laid(runs, between, k - 1) + (runs[k - 1] + between[k - 1])
  }

  predicate IsLaid<T(==)>(out: seq<T>, runs: seq<seq<T>>, between: seq<seq<T>>, k: nat) {
    |runs| == |between| + 1 && k <= |between| && out == Laid(runs, between, k)
  }

  lemma LaidNext<T>(out: seq<T>, runs: seq<seq<T>>, between: seq<seq<T>>, k: nat, part: seq<T>)
    requires IsLaid(out, runs, between, k) && k < |between| && part == runs[k] + between[k]
    ensures IsLaid(out + part, runs, between, k + 1)
  {
  }

  lemma {:induction false} LaidAndWoven<T>(runs: seq<seq<T>>, between: seq<seq<T>>, k: nat)
    requires |runs| == |between| + 1 && k <= |between|
    ensures Laid(runs, between, k) + Woven(runs, between, k) == Woven(runs, between, 0)
  {
    if k == 0 {
      ConcatNone(Woven(runs, between, 0));
    } else {
      LaidAndWoven(runs, between, k - 1);
      Assoc(Laid(runs, between, k - 1), runs[k - 1] + between[k - 1], Woven(runs, between, k));
    }
  }

  lemma LaidAll<T>(out: seq<T>, runs: seq<seq<T>>, between: seq<seq<T>>)
    requires IsLaid(out, runs, between, |between|)
    ensures out + runs[|between|] == Woven(runs, between, 0)
  {
    LaidAndWoven(runs, between, |between|);
  }

  /** Of the first `n`, those whose key no earlier one has. */
  function Firsts<T, K(==)>(s: seq<T>, key: T -> K, n: nat): seq<T>
    requires n <= |s|
  {
    if n == 0 then []
    else Firsts(s, key, n - 1) + if exists j :: 0 <= j < n - 1 && key(s[j]) == key(s[n - 1]) then [] else [s[n - 1]]
  }
}
