/** The SDK image's root file system, shared out among layers: ci/split-layers.py. */
module Layers {

  /** A member of the tar: only regular files carry bytes. */
  datatype Member = Member(size: nat, regular: bool) {
    function Bytes(): nat { if regular then size else 0 }
  }

  datatype Outcome = Split(layers: seq<seq<Member>>) | ZeroDivisionError | NoOpenLayer

  function Total(members: seq<Member>): nat {
    if members == [] then 0 else Total(members[..|members| - 1]) + members[|members| - 1].Bytes()
  }

  function Largest(members: seq<Member>): nat {
    if members == [] then 0
    else
      var rest, last := Largest(members[..|members| - 1]), members[|members| - 1].Bytes();
      if last > rest then last else rest
  }

  function Flattened(layers: seq<seq<Member>>): seq<Member> {
    if layers == [] then [] else Flattened(layers[..|layers| - 1]) + layers[|layers| - 1]
  }

  /** Bytes in the layers before layer `k`. */
  function Start(layers: seq<seq<Member>>, k: nat): nat
    requires k <= |layers|
  {
    Total(Flattened(layers[..k]))
  }

  /** How the host rounds a result: to a float in the source, and any way at all here. */
  type Rounding = real -> real

  /** A layer's share of the bytes. */
  function ShareOf(members: seq<Member>, n: int): real
    requires n != 0
  {
    Total(members) as real / n as real
  }

  function Multiple(r: real, k: nat): real {
    if k == 0 then 0.0 else Multiple(r, k - 1) + r
  }

  /** What the layers before layer `k` should hold, as computed. */
  function DueOf(share: real, round: Rounding): nat -> real {
    (k: nat) => round(Multiple(round(share), k))
  }

  lemma {:induction false} MultipleIsTimes(r: real, k: nat)
    ensures Multiple(r, k) == r * k as real
  {
    if k == 0 {
    } else {
      MultipleIsTimes(r, k - 1);
      assert r * k as real == r * (k - 1) as real + r;
    }
  }

  /** Layer `k`, with `start` bytes before it: opened at the first member with what
      is due by then written before it, and not reaching what is due next but with its last
      member; only the last of `n` layers goes on. */
  ghost predicate LayerRule(layer: seq<Member>, start: nat, k: nat, due: nat -> real, n: int) {
    && layer != []
    && (k > 0 ==> start as real >= due(k) && k < n)
    && forall j :: 0 < j < |layer| ==> k >= n - 1 || (start + Total(layer[..j])) as real < due(k + 1)
  }

  ghost predicate Ruled(layers: seq<seq<Member>>, due: nat -> real, n: int) {
    forall k :: 0 <= k < |layers| ==> LayerRule(layers[k], Start(layers, k), k, due, n)
  }

  lemma StartOfPrefix(layers: seq<seq<Member>>, layer: seq<Member>, k: nat)
    requires k <= |layers|
    ensures Start(layers + [layer], k) == Start(layers, k)
  {
    assert (layers + [layer])[..k] == layers[..k];
  }

  lemma RuledAppend(layers: seq<seq<Member>>, layer: seq<Member>, due: nat -> real, n: int)
    requires Ruled(layers, due, n)
    requires LayerRule(layer, Total(Flattened(layers)), |layers|, due, n)
    ensures Ruled(layers + [layer], due, n)
    ensures Flattened(layers + [layer]) == Flattened(layers) + layer
  {
    var all := layers + [layer];
    assert all[..|layers|] == layers && layers[..|layers|] == layers;
    forall k | 0 <= k < |all|
      ensures LayerRule(all[k], Start(all, k), k, due, n)
    {
      StartOfPrefix(layers, layer, k);
    }
  }

  lemma TotalAppend(members: seq<Member>, m: Member)
    ensures Total(members + [m]) == Total(members) + m.Bytes()
  {
    assert (members + [m])[..|members|] == members;
  }

  lemma LayerRuleAdd(layer: seq<Member>, m: Member, start: nat, k: nat, due: nat -> real, n: int)
    requires layer != [] ==> LayerRule(layer, start, k, due, n)
    requires layer != [] ==> k >= n - 1 || (start + Total(layer)) as real < due(k + 1)
    requires layer == [] && k > 0 ==> start as real >= due(k) && k < n
    ensures LayerRule(layer + [m], start, k, due, n)
  {
    var all := layer + [m];
    forall j | 0 < j < |all|
      ensures k >= n - 1 || (start + Total(all[..j])) as real < due(k + 1)
    {
      assert all[..j] == layer[..j];
      assert layer[..|layer|] == layer;
    }
  }

  /** What holds with `closed` the layers written out and `out` the members of the open one;
      nothing is open before the first member. */
  ghost predicate Progress(members: seq<Member>, closed: seq<seq<Member>>, out: seq<Member>,
                           written: nat, due: nat -> real, n: int)
  {
    && (out == [] <==> members == []) && (out == [] ==> closed == [])
    && Flattened(closed) + out == members
    && written == Total(members)
    && Ruled(closed, due, n)
    && (out != [] ==> LayerRule(out, Total(Flattened(closed)), |closed|, due, n))
  }

  lemma ProgressAdd(members: seq<Member>, closed: seq<seq<Member>>, out: seq<Member>,
                    written: nat, due: nat -> real, n: int, m: Member)
    requires Progress(members, closed, out, written, due, n)
    requires out != [] ==> written as real < due(|closed| + 1) || |closed| >= n - 1
    ensures Progress(members + [m], closed, out + [m], written + m.Bytes(), due, n)
  {
    TotalConcat(Flattened(closed), out);
    LayerRuleAdd(out, m, Total(Flattened(closed)), |closed|, due, n);
    TotalAppend(members, m);
    assert Flattened(closed) + (out + [m]) == members + [m];
  }

  lemma ProgressOpen(members: seq<Member>, closed: seq<seq<Member>>, out: seq<Member>,
                     written: nat, due: nat -> real, n: int, m: Member)
    requires Progress(members, closed, out, written, due, n) && out != []
    requires written as real >= due(|closed| + 1) && |closed| < n - 1
    ensures Progress(members + [m], closed + [out], [m], written + m.Bytes(), due, n)
  {
    RuledAppend(closed, out, due, n);
    LayerRuleAdd([], m, Total(members), |closed| + 1, due, n);
    assert [] + [m] == [m];
    TotalAppend(members, m);
  }

  method Split(members: seq<Member>, n: int, round: Rounding) returns (r: Outcome)
    ensures r.ZeroDivisionError? <==> n == 0
    ensures r.NoOpenLayer? <==> n != 0 && members == []
    ensures r.Split? ==> Flattened(r.layers) == members
                         && Ruled(r.layers, DueOf(ShareOf(members, n), round), n)
  {
    if n == 0 {
      return ZeroDivisionError;
    }
    var layers := Fill(members, ShareOf(members, n), round, n);
    r := if layers == [] then NoOpenLayer else Outcome.Split(layers);
  }

  /** Whether the layers up to `index` have what is due. */
  method IsFull(written: nat, share: real, round: Rounding, index: nat) returns (full: bool)
    ensures full <==> written as real >= DueOf(share, round)(index + 1)
  {
    var multiple := round(share) * (index + 1) as real;
    MultipleIsTimes(round(share), index + 1);
    assert multiple == Multiple(round(share), index + 1);
    full := written as real >= round(multiple);
  }

  /** The loop over the members. */
  method Fill(members: seq<Member>, share: real, round: Rounding, n: int) returns (layers: seq<seq<Member>>)
    ensures layers == [] <==> members == []
    ensures Flattened(layers) == members && Ruled(layers, DueOf(share, round), n)
  {
    ghost var due := DueOf(share, round);
    var index, written: nat := 0, 0;
    var closed: seq<seq<Member>> := [];
    var out: seq<Member> := [];
    for i := 0 to |members|
      invariant index == |closed| && Progress(members[..i], closed, out, written, due, n)
    {
      var m := members[i];
      assert members[..i + 1] == members[..i] + [m];
      var full := IsFull(written, share, round, index);
      if out == [] || (full && index < n - 1) {
        if out != [] {
          ProgressOpen(members[..i], closed, out, written, due, n, m);
          closed := closed + [out];
          index := index + 1;
          out := [];
        } else {
          ProgressAdd(members[..i], closed, out, written, due, n, m);
        }
      } else {
        ProgressAdd(members[..i], closed, out, written, due, n, m);
      }
      written := written + m.Bytes();
      out := out + [m];
      assert [] + [m] == [m];
    }
    assert members[..|members|] == members;
    if out != [] {
      RuledAppend(closed, out, due, n);
      closed := closed + [out];
    }
    layers := closed;
  }

  lemma {:induction false} TotalConcat(a: seq<Member>, b: seq<Member>)
    ensures Total(a + b) == Total(a) + Total(b)
  {
    if b == [] {
      assert a + b == a;
    } else {
      var init := b[..|b| - 1];
      TotalConcat(a, init);
      assert (a + b)[..|a + b| - 1] == a + init;
    }
  }

  // ----- balance -----

  lemma StartNext(layers: seq<seq<Member>>, k: nat)
    requires k < |layers|
    ensures Start(layers, k + 1) == Start(layers, k) + Total(layers[k])
  {
    assert layers[..k + 1][..k] == layers[..k];
    TotalConcat(Flattened(layers[..k]), layers[k]);
  }

  lemma {:induction false} LargestIsBound(members: seq<Member>, i: nat)
    requires i < |members|
    ensures members[i].Bytes() <= Largest(members)
  {
    if i == |members| - 1 {
    } else {
      LargestIsBound(members[..|members| - 1], i);
    }
  }

  lemma {:induction false} MembersOfLayer(layers: seq<seq<Member>>, k: nat, i: nat)
    requires k < |layers| && i < |layers[k]|
    ensures layers[k][i] in Flattened(layers)
  {
    var last := |layers| - 1;
    if k == last {
    } else {
      MembersOfLayer(layers[..last], k, i);
    }
  }

  lemma LayerMemberBound(layers: seq<seq<Member>>, k: nat, i: nat)
    requires k < |layers| && i < |layers[k]|
    ensures layers[k][i].Bytes() <= Largest(Flattened(layers))
  {
    MembersOfLayer(layers, k, i);
    var j :| 0 <= j < |Flattened(layers)| && Flattened(layers)[j] == layers[k][i];
    LargestIsBound(Flattened(layers), j);
  }

  /** What is due grows from nothing. */
  ghost predicate Rising(due: nat -> real) {
    due(0) == 0.0 && forall j: nat, k: nat :: j <= k ==> due(j) <= due(k)
  }

  lemma LayerSplitsOff(layers: seq<seq<Member>>, k: nat)
    requires k < |layers| && layers[k] != []
    ensures var j := |layers[k]| - 1;
            && Total(layers[k]) == Total(layers[k][..j]) + layers[k][j].Bytes()
            && layers[k][j].Bytes() <= Largest(Flattened(layers))
            && (j == 0 ==> Total(layers[k][..j]) == 0)
  {
    LayerMemberBound(layers, k, |layers[k]| - 1);
  }

  /** All but its last member of a layer, but for the last layer, end before the next is due. */
  lemma LayerBound(layers: seq<seq<Member>>, due: nat -> real, n: int, k: nat)
    requires Ruled(layers, due, n) && Rising(due) && k < |layers| && k < n - 1
    ensures Total(layers[k]) as real <= due(k + 1) - due(k) + Largest(Flattened(layers)) as real
  {
    assert LayerRule(layers[k], Start(layers, k), k, due, n);
    LayerSplitsOff(layers, k);
    assert Start(layers, k) as real >= due(k);
    assert due(k) <= due(k + 1);
  }

  lemma LastLayerBound(layers: seq<seq<Member>>, due: nat -> real, k: nat, n: nat)
    requires |layers| == n == k + 1 && Ruled(layers, due, n) && Rising(due)
    ensures Total(layers[k]) as real <= Total(Flattened(layers)) as real - due(k)
  {
    assert LayerRule(layers[k], Start(layers, k), k, due, n);
    StartNext(layers, k);
    assert layers[..k + 1] == layers;
  }

  lemma LayerCount(layers: seq<seq<Member>>, due: nat -> real, n: nat)
    requires n >= 1 && layers != [] && Ruled(layers, due, n)
    ensures |layers| <= n && forall k :: 0 <= k < |layers| ==> layers[k] != []
  {
    assert LayerRule(layers[|layers| - 1], Start(layers, |layers| - 1), |layers| - 1, due, n);
    forall k | 0 <= k < |layers|
      ensures layers[k] != []
    {
      assert LayerRule(layers[k], Start(layers, k), k, due, n);
    }
  }

  /** With no member above what is due from one layer to the next, layer `k` starts no more than
      the largest member after it is due. */
  lemma {:induction false} StartsInTime(layers: seq<seq<Member>>, due: nat -> real, n: int, k: nat)
    requires Ruled(layers, due, n) && Rising(due) && 0 < k <= |layers| && k < n && due(1) > 0.0
    requires forall i: nat :: i < n - 1 ==> Largest(Flattened(layers)) as real <= due(i + 1) - due(i)
    ensures (Start(layers, k) as real) < due(k) + Largest(Flattened(layers)) as real
  {
    StartNext(layers, k - 1);
    assert LayerRule(layers[k - 1], Start(layers, k - 1), k - 1, due, n);
    LayerSplitsOff(layers, k - 1);
    if k == 1 {
      assert layers[..0] == [];
    } else {
      StartsInTime(layers, due, n, k - 1);
      assert Largest(Flattened(layers)) as real <= due(k - 2 + 1) - due(k - 2);
      assert Largest(Flattened(layers)) as real <= due(k - 1 + 1) - due(k - 1);
    }
  }

  /** Then there are exactly `n` layers, if the last one's bytes suffice for a member too. */
  lemma LayerCountExact(layers: seq<seq<Member>>, due: nat -> real, n: nat)
    requires n >= 1 && layers != [] && Ruled(layers, due, n) && Rising(due) && (n > 1 ==> due(1) > 0.0)
    requires forall i: nat :: i < n - 1 ==> Largest(Flattened(layers)) as real <= due(i + 1) - due(i)
    requires due(n - 1) + Largest(Flattened(layers)) as real <= Total(Flattened(layers)) as real
    ensures |layers| == n
  {
    LayerCount(layers, due, n);
    var k := |layers|;
    assert layers[..k] == layers;
    if k < n {
      StartsInTime(layers, due, n, k);
    }
  }

  // ----- how far rounding goes -----

  /** What is due for up to `n` layers is that many shares, give or take the slack. */
  ghost predicate DueWithin(due: nat -> real, share: real, n: nat, slack: real) {
    && Rising(due)
    && forall k: nat :: k <= n ==> Multiple(share, k) - slack <= due(k) <= Multiple(share, k) + slack
  }

  /** Order is kept, and a result is off by no more than the part of it a float may be: one in
      2 to the 53rd. */
  ghost predicate RoundsAsFloat(round: Rounding) {
    && (forall x: real, y: real :: x <= y ==> round(x) <= round(y))
    && forall x: real :: x >= 0.0 ==>
         x - x / 9007199254740992.0 <= round(x) <= x + x / 9007199254740992.0
  }

  lemma {:induction false} MultipleNear(r: real, s: real, d: real, k: nat)
    requires s - d <= r <= s + d
    ensures Multiple(s, k) - Multiple(d, k) <= Multiple(r, k) <= Multiple(s, k) + Multiple(d, k)
  {
    if k == 0 {
    } else {
      MultipleNear(r, s, d, k - 1);
    }
  }

  lemma {:induction false} MultipleOfPart(s: real, k: nat)
    ensures Multiple(s / 9007199254740992.0, k) == Multiple(s, k) / 9007199254740992.0
  {
    if k == 0 {
    } else {
      MultipleOfPart(s, k - 1);
    }
  }

  lemma {:induction false} MultipleOrdered(s: real, j: nat, k: nat)
    requires s >= 0.0 && j <= k
    ensures 0.0 <= Multiple(s, j) <= Multiple(s, k)
    decreases k
  {
    if k == 0 {
    } else if j == k {
      MultipleOrdered(s, j - 1, k - 1);
    } else {
      MultipleOrdered(s, j, k - 1);
    }
  }

  /** Without rounding there is no slack. */
  lemma ExactDue(share: real, round: Rounding, n: nat)
    requires share >= 0.0 && forall x: real :: round(x) == x
    ensures DueWithin(DueOf(share, round), share, n, 0.0)
  {
    forall j: nat, k: nat | j <= k
      ensures Multiple(share, j) <= Multiple(share, k)
    {
      MultipleOrdered(share, j, k);
    }
  }

  /** Twice off by such a part, a number is off by no more than three of the whole. */
  lemma NearTwice(x: real, m: real, y: real, whole: real)
    requires 0.0 <= x <= whole
    requires x - x / 9007199254740992.0 <= m <= x + x / 9007199254740992.0
    requires m - m / 9007199254740992.0 <= y <= m + m / 9007199254740992.0
    ensures x - 3.0 * whole / 9007199254740992.0 <= y <= x + 3.0 * whole / 9007199254740992.0
  {
  }

  lemma FloatDueAt(share: real, round: Rounding, n: nat, k: nat)
    requires share >= 0.0 && RoundsAsFloat(round) && k <= n
    ensures var slack := 3.0 * Multiple(share, n) / 9007199254740992.0;
            Multiple(share, k) - slack <= round(Multiple(round(share), k)) <= Multiple(share, k) + slack
  {
    var r, m := round(share), Multiple(round(share), k);
    MultipleNear(r, share, share / 9007199254740992.0, k);
    MultipleOfPart(share, k);
    MultipleOrdered(share, k, n);
    MultipleOrdered(r, 0, k);
    NearTwice(Multiple(share, k), m, round(m), Multiple(share, n));
  }

  lemma FloatDueRises(share: real, round: Rounding)
    requires share >= 0.0 && RoundsAsFloat(round)
    ensures Rising(DueOf(share, round))
  {
    var due, r := DueOf(share, round), round(share);
    forall j: nat, k: nat | j <= k
      ensures due(j) <= due(k)
    {
      MultipleOrdered(r, j, k);
    }
  }

  /** With floats it is three parts in 2 to the 53rd of the whole: one for the share, and no more
      than two for its multiple. */
  lemma FloatDue(share: real, round: Rounding, n: nat)
    requires share >= 0.0 && RoundsAsFloat(round)
    ensures DueWithin(DueOf(share, round), share, n, 3.0 * Multiple(share, n) / 9007199254740992.0)
  {
    FloatDueRises(share, round);
    forall k: nat | k <= n
      ensures var slack := 3.0 * Multiple(share, n) / 9007199254740992.0;
              Multiple(share, k) - slack <= DueOf(share, round)(k) <= Multiple(share, k) + slack
    {
      FloatDueAt(share, round, n, k);
    }
  }

  lemma SharesMakeTotal(members: seq<Member>, n: nat)
    requires n >= 1
    ensures Multiple(ShareOf(members, n), n) == Total(members) as real
    ensures ShareOf(members, n) >= 0.0
  {
    MultipleIsTimes(ShareOf(members, n), n);
  }

  /** The shares of `Split` on a host with floats: off by no more than a byte in three thousand
      million million. */
  lemma FloatShares(members: seq<Member>, n: nat, round: Rounding)
    requires n >= 1 && RoundsAsFloat(round)
    ensures DueWithin(DueOf(ShareOf(members, n), round), ShareOf(members, n), n,
                      3.0 * Total(members) as real / 9007199254740992.0)
  {
    SharesMakeTotal(members, n);
    FloatDue(ShareOf(members, n), round, n);
  }

  // ----- what `Split` makes -----

  lemma LayerAtMost(members: seq<Member>, share: real, due: nat -> real, n: nat, slack: real,
                    layers: seq<seq<Member>>, k: nat)
    requires DueWithin(due, share, n, slack) && Multiple(share, n) == Total(members) as real
    requires k < |layers| <= n && Flattened(layers) == members && Ruled(layers, due, n)
    ensures Total(layers[k]) as real <= share + Largest(members) as real + slack + slack
    ensures k == n - 1 ==> Total(layers[k]) as real <= share + slack
  {
    assert Multiple(share, k + 1) == Multiple(share, k) + share;
    if k < n - 1 {
      LayerBound(layers, due, n, k);
    } else {
      LastLayerBound(layers, due, k, n);
      assert due(0) <= Multiple(share, 0) + slack;
    }
  }

  /** At most `n` layers, none empty; each holds no more than a share of the bytes and the largest
      member, and the last of `n` no more than a share, give or take the slack of what is due. */
  lemma SplitIsBalanced(members: seq<Member>, n: nat, round: Rounding, slack: real,
                        layers: seq<seq<Member>>, k: nat)
    requires n >= 1 && k < |layers| && Flattened(layers) == members
    requires DueWithin(DueOf(ShareOf(members, n), round), ShareOf(members, n), n, slack)
    requires Ruled(layers, DueOf(ShareOf(members, n), round), n)
    ensures |layers| <= n && layers[k] != []
    ensures Total(layers[k]) as real <= ShareOf(members, n) + Largest(members) as real + slack + slack
    ensures k == n - 1 ==> Total(layers[k]) as real <= ShareOf(members, n) + slack
  {
    SharesMakeTotal(members, n);
    LayerCount(layers, DueOf(ShareOf(members, n), round), n);
    LayerAtMost(members, ShareOf(members, n), DueOf(ShareOf(members, n), round), n, slack, layers, k);
  }

  lemma {:induction false} SomeLargest(members: seq<Member>)
    ensures Total(members) > 0 ==> Largest(members) > 0
  {
    if members == [] {
    } else {
      SomeLargest(members[..|members| - 1]);
    }
  }

  lemma EnoughForEach(members: seq<Member>, share: real, due: nat -> real, n: nat, slack: real,
                      layers: seq<seq<Member>>)
    requires DueWithin(due, share, n, slack) && Multiple(share, n) == Total(members) as real
    requires n >= 1 && Flattened(layers) == members && Ruled(layers, due, n) && layers != []
    requires 0.0 < Largest(members) as real <= share - slack - slack
    ensures |layers| == n
  {
    forall i: nat | i < n
      ensures Largest(members) as real <= due(i + 1) - due(i)
    {
      assert Multiple(share, i + 1) == Multiple(share, i) + share;
    }
    assert Multiple(share, n - 1 + 1) == Multiple(share, n - 1) + share;
    assert due(0) <= Multiple(share, 0) + slack;
    assert Largest(members) as real <= due(0 + 1) - due(0);
    LayerCountExact(layers, due, n);
  }

  /** And exactly `n` when there are bytes and no member, with that slack, is above a share. */
  lemma SplitIsExact(members: seq<Member>, n: nat, round: Rounding, slack: real, layers: seq<seq<Member>>)
    requires n >= 1 && Flattened(layers) == members
    requires DueWithin(DueOf(ShareOf(members, n), round), ShareOf(members, n), n, slack)
    requires Ruled(layers, DueOf(ShareOf(members, n), round), n)
    requires Total(members) > 0 && Largest(members) as real <= ShareOf(members, n) - slack - slack
    ensures |layers| == n
  {
    SharesMakeTotal(members, n);
    SomeLargest(members);
    EnoughForEach(members, ShareOf(members, n), DueOf(ShareOf(members, n), round), n, slack, layers);
  }

  // ----- no other layers follow the rule -----

  /** What the first layers hold, and the next, come first in the whole. */
  lemma {:induction false} FlattenedPrefix(layers: seq<seq<Member>>, k: nat)
    requires k < |layers|
    ensures Flattened(layers[..k]) + layers[k] <= Flattened(layers)
    ensures k + 1 == |layers| ==> Flattened(layers[..k]) + layers[k] == Flattened(layers)
    decreases |layers|
  {
    var last := |layers| - 1;
    if k == last {
    } else {
      FlattenedPrefix(layers[..last], k);
      assert layers[..last][..k] == layers[..k];
    }
  }

  lemma PrefixOfLonger(before: seq<Member>, x: seq<Member>, y: seq<Member>, all: seq<Member>)
    requires before + x <= all && before + y <= all && |x| <= |y|
    ensures x == y[..|x|]
  {
    assert all[|before|..|before| + |x|] == x;
    assert all[|before|..|before| + |y|] == y;
  }

  /** A layer does not go on past where the next is due. */
  lemma NoLongerLayer(x: seq<Member>, y: seq<Member>, start: nat, k: nat, due: nat -> real, n: int)
    requires LayerRule(y, start, k, due, n) && 0 < |x| <= |y| && x == y[..|x|]
    requires (start + Total(x)) as real >= due(k + 1) && k + 1 < n
    ensures x == y
  {
    assert x == y || |x| < |y|;
  }

  /** Of two layerings alike up to layer `k`, neither has the longer one there. */
  lemma NoShorterLayer(a: seq<seq<Member>>, b: seq<seq<Member>>, k: nat, due: nat -> real, n: int)
    requires Ruled(a, due, n) && Ruled(b, due, n) && Flattened(a) == Flattened(b)
    requires k < |a| && k < |b| && a[..k] == b[..k] && |a[k]| <= |b[k]|
    ensures a[k] == b[k]
  {
    FlattenedPrefix(a, k);
    FlattenedPrefix(b, k);
    PrefixOfLonger(Flattened(a[..k]), a[k], b[k], Flattened(a));
    assert LayerRule(a[k], Start(a, k), k, due, n);
    assert LayerRule(b[k], Start(b, k), k, due, n);
    if k + 1 < |a| {
      StartNext(a, k);
      assert LayerRule(a[k + 1], Start(a, k + 1), k + 1, due, n);
      NoLongerLayer(a[k], b[k], Start(b, k), k, due, n);
    }
  }

  lemma {:induction false} SameLayers(a: seq<seq<Member>>, b: seq<seq<Member>>, k: nat, due: nat -> real, n: int)
    requires Ruled(a, due, n) && Ruled(b, due, n) && Flattened(a) == Flattened(b)
    requires k <= |a| && k <= |b|
    ensures a[..k] == b[..k]
  {
    if k == 0 {
    } else {
      SameLayers(a, b, k - 1, due, n);
      if |a[k - 1]| <= |b[k - 1]| {
        NoShorterLayer(a, b, k - 1, due, n);
      } else {
        NoShorterLayer(b, a, k - 1, due, n);
      }
      PrefixStep(a, b, k);
    }
  }

  lemma PrefixStep(a: seq<seq<Member>>, b: seq<seq<Member>>, k: nat)
    requires 0 < k <= |a| && k <= |b| && a[..k - 1] == b[..k - 1] && a[k - 1] == b[k - 1]
    ensures a[..k] == b[..k]
  {
    assert a[..k] == a[..k - 1] + [a[k - 1]] && b[..k] == b[..k - 1] + [b[k - 1]];
  }

  lemma NoMoreLayers(a: seq<seq<Member>>, b: seq<seq<Member>>, due: nat -> real, n: int)
    requires Ruled(a, due, n) && Ruled(b, due, n) && Flattened(a) == Flattened(b)
    ensures |b| <= |a|
  {
    var k := |a|;
    if k < |b| {
      SameLayers(a, b, k, due, n);
      assert a[..k] == a;
      LayersGoOn(b, k, due, n);
    }
  }

  lemma LayersGoOn(layers: seq<seq<Member>>, k: nat, due: nat -> real, n: int)
    requires Ruled(layers, due, n) && k < |layers|
    ensures |Flattened(layers[..k])| < |Flattened(layers)|
  {
    FlattenedPrefix(layers, k);
    assert LayerRule(layers[k], Start(layers, k), k, due, n);
  }

  /** The rule and the members decide the layers: `Split` makes the only ones. */
  lemma LayersUnique(a: seq<seq<Member>>, b: seq<seq<Member>>, due: nat -> real, n: int)
    requires Ruled(a, due, n) && Ruled(b, due, n) && Flattened(a) == Flattened(b)
    ensures a == b
  {
    NoMoreLayers(a, b, due, n);
    NoMoreLayers(b, a, due, n);
    SameLayers(a, b, |a|, due, n);
    assert a[..|a|] == a && b[..|b|] == b;
  }

  // ----- the same by the numbers -----

  /** Only regular files have bytes. */
  lemma TotalByNumber(members: seq<Member>, size: nat, regular: bool)
    ensures Total([]) == 0
    ensures Total(members + [Member(size, regular)]) == Total(members) + if regular then size else 0
  {
    TotalAppend(members, Member(size, regular));
  }

  lemma {:induction false} LargestByNumber(members: seq<Member>)
    ensures forall m <- members :: m.regular ==> m.size <= Largest(members)
    ensures Largest(members) == 0 || exists m <- members :: m.regular && m.size == Largest(members)
  {
    if members == [] {
    } else {
      var init, last := members[..|members| - 1], members[|members| - 1];
      LargestByNumber(init);
      assert members == init + [last] && forall m <- init :: m in members;
      assert last in members;
    }
  }

  /** Layer `k` opens with what is due written before it, and is still open at every later member
      of its own because what is due next is not written yet, or no layer may follow. */
  lemma LayerOpensWhenDue(members: seq<Member>, due: nat -> real, n: int, layers: seq<seq<Member>>, k: nat, j: nat)
    requires Flattened(layers) == members && Ruled(layers, due, n)
    requires k < |layers| && j < |layers[k]|
    ensures var at := |Flattened(layers[..k])| + j;
            && at < |members| && members[at] == layers[k][j]
            && (j == 0 && k > 0 ==> k < n && Total(members[..at]) as real >= due(k))
            && (j > 0 ==> k + 1 >= n || (Total(members[..at]) as real) < due(k + 1))
  {
    MemberAt(members, layers, k, j);
    assert LayerRule(layers[k], Start(layers, k), k, due, n);
  }

  /** The place of a layer's member among all, and the bytes before it. */
  lemma MemberAt(members: seq<Member>, layers: seq<seq<Member>>, k: nat, j: nat)
    requires Flattened(layers) == members && k < |layers| && j < |layers[k]|
    ensures var at := |Flattened(layers[..k])| + j;
            && at < |members| && members[at] == layers[k][j]
            && Total(members[..at]) == Start(layers, k) + Total(layers[k][..j])
            && (j == 0 ==> Total(layers[k][..j]) == 0)
  {
    var before := Flattened(layers[..k]);
    FlattenedPrefix(layers, k);
    assert members[..|before| + j] == before + layers[k][..j];
    TotalConcat(before, layers[k][..j]);
  }

  /** What is due is the share, rounded, so many times, and rounded again. */
  lemma DueSpelled(share: real, round: Rounding, k: nat)
    ensures DueOf(share, round)(k) == round(round(share) * k as real)
  {
    var multiple := round(share) * k as real;
    MultipleIsTimes(round(share), k);
    assert multiple == Multiple(round(share), k);
  }
}
