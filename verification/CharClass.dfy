/** The character class of the table generator: `char_class` of scripts/fetch-emoji.py. */
module CharClass {
  import opened Utf16
  import opened EmojiTables
  import ClassText

  /** A set of units as Python's `sorted(set(units))`, from `lo` on. */
  function Sorted(units: set<Unit>, lo: nat): (us: seq<Unit>)
    ensures forall u :: u in us <==> u in units && lo <= u
    ensures Ascending(us)
    decreases 0x10000 - lo
  {
    if lo >= 0x10000 then []
    else if lo in units then
      var rest := Sorted(units, lo + 1);
      assert forall j :: 0 < j < |rest| + 1 ==> ([lo] + rest)[j] in rest;
      [lo] + rest
    else Sorted(units, lo + 1)
  }

  /** Ranges in ascending order, with a unit left out between any two. */
  predicate Canonical(ranges: seq<Range>) {
    && (forall k :: 0 <= k < |ranges| ==> ranges[k].lo <= ranges[k].hi)
    && forall j, k :: 0 <= j < k < |ranges| ==> ranges[j].hi + 1 < ranges[k].lo
  }

  ghost predicate Denotes(ranges: seq<Range>, units: set<Unit>) {
    forall u: Unit :: InClass(ranges, u) <==> u in units
  }

  lemma InClassAppend(ranges: seq<Range>, r: Range, u: Unit)
    ensures InClass(ranges + [r], u) <==> InClass(ranges, u) || r.lo <= u <= r.hi
  {
    var all := ranges + [r];
    if InClass(ranges, u) {
      var k :| 0 <= k < |ranges| && ranges[k].lo <= u <= ranges[k].hi;
      assert all[k] == ranges[k];
    }
    if r.lo <= u <= r.hi {
      assert all[|ranges|] == r;
    }
  }

  predicate Ascending(us: seq<Unit>) {
    forall i, j :: 0 <= i < j < |us| ==> us[i] < us[j]
  }

  /** The first `i` units are dealt with. */
  ghost predicate Done(us: seq<Unit>, i: nat, parts: seq<Range>)
    requires i <= |us|
  {
    && Canonical(parts)
    && (forall u: Unit :: InClass(parts, u) <==> u in us[..i])
    && (parts != [] ==> i > 0 && parts[|parts| - 1].hi == us[i - 1])
  }

  ghost predicate Consecutive(us: seq<Unit>, i: nat, j: nat) {
    i <= j < |us| && forall k :: i <= k <= j ==> us[k] == us[i] + (k - i)
  }

  lemma ConsecutiveMembers(us: seq<Unit>, i: nat, j: nat, u: Unit)
    requires Consecutive(us, i, j)
    ensures u in us[i..j + 1] <==> us[i] <= u <= us[j]
  {
    var run := us[i..j + 1];
    assert forall k :: 0 <= k < |run| ==> run[k] == us[i] + k;
    if us[i] <= u <= us[j] {
      assert run[u - us[i]] == u;
    }
  }

  /** A run of consecutive units, closed off as one range. */
  lemma PartAdded(us: seq<Unit>, i: nat, j: nat, parts: seq<Range>)
    requires Consecutive(us, i, j) && Done(us, i, parts)
    requires i > 0 ==> us[i] as int > us[i - 1] as int + 1
    ensures Done(us, j + 1, parts + [Range(us[i], us[j])])
  {
    var all := parts + [Range(us[i], us[j])];
    forall u: Unit
      ensures InClass(all, u) <==> u in us[..j + 1]
    {
      InClassAppend(parts, Range(us[i], us[j]), u);
      ConsecutiveMembers(us, i, j, u);
      assert us[..j + 1] == us[..i] + us[i..j + 1];
    }
  }

  /** The regular expression's class: what it reads as is exactly these units, in canonical
      form. */
  method CharClass(units: set<Unit>) returns (parts: seq<Range>, text: string)
    ensures forall u: Unit :: u in units <==> exists k :: 0 <= k < |parts| && parts[k].lo <= u <= parts[k].hi
    ensures Denotes(parts, units) && Canonical(parts)
    ensures text == ClassText.Written(parts) && ClassText.ReadClass(text) == Some(parts)
  {
    var us := Sorted(units, 0);
    parts := [];
    var i := 0;
    while i < |us|
      invariant i <= |us| && Done(us, i, parts)
      invariant 0 < i < |us| ==> us[i] as int > us[i - 1] as int + 1
    {
      var j := i;
      while j + 1 < |us| && us[j + 1] as int == us[j] as int + 1
        invariant Consecutive(us, i, j)
      {
        j := j + 1;
      }
      PartAdded(us, i, j, parts);
      parts := parts + [Range(us[i], us[j])];
      i := j + 1;
    }
    assert us[..i] == us;
    assert forall u: Unit :: u in units <==> InClass(parts, u);
    ClassText.WrittenReads(parts);
    text := ClassText.Written(parts);
  }

  /** No range without the unit left out between can reach both. */
  lemma GapBetween(ranges: seq<Range>, j: nat, k: nat, lo: int, hi: int)
    requires Canonical(ranges) && j < k < |ranges|
    requires lo <= ranges[j].lo && ranges[k].lo <= hi
    ensures lo <= ranges[j].hi + 1 <= hi && !InClass(ranges, ranges[j].hi + 1)
  {
  }

  /** Whatever ranges denote the same units, there are no fewer of them. */
  lemma CanonicalIsShortest(ranges: seq<Range>, others: seq<Range>)
    requires Canonical(ranges)
    requires forall u: Unit :: InClass(ranges, u) <==> InClass(others, u)
    ensures |ranges| <= |others|
  {
    var k := 0;
    var used: set<nat> := {};
    while k < |ranges|
      invariant k <= |ranges| && |used| == k
      invariant forall m <- used :: m < |others|
                  && exists j :: 0 <= j < k && others[m].lo <= ranges[j].lo <= others[m].hi
    {
      assert InClass(ranges, ranges[k].lo);
      var m: nat :| m < |others| && others[m].lo <= ranges[k].lo <= others[m].hi;
      if m in used {
        var j :| 0 <= j < k && others[m].lo <= ranges[j].lo <= others[m].hi;
        GapBetween(ranges, j, k, others[m].lo, others[m].hi);
        assert false;
      }
      used := used + {m};
      k := k + 1;
    }
    IndicesCount(used, |others|);
  }

  lemma {:induction false} IndicesCount(used: set<nat>, n: nat)
    requires forall m <- used :: m < n
    ensures |used| <= n
  {
    if n > 0 {
      IndicesCount(used - {n - 1}, n - 1);
    } else {
      assert used == {};
    }
  }
}
