/** The recent emoji: `remember` of Emoji.js, over a whole history of choices. */
module RecentEmoji {
  import opened SeqFacts
  import opened Utf16
  import opened EmojiScanner

  const LIMIT: nat := 40

  function Others(recent: seq<Text>, emoji: Text): seq<Text> {
    if recent == [] then []
    else if Key(recent[0]) == Key(emoji) then Others(recent[1..], emoji)
    else [recent[0]] + Others(recent[1..], emoji)
  }

  function Capped<T>(s: seq<T>): seq<T> {
    if |s| <= LIMIT then s else s[..LIMIT]
  }

  /** One choice: the emoji goes to the front, out of its old place, and the list stays short. */
  method Remember(recent: seq<Text>, emoji: Text) returns (out: seq<Text>)
    ensures out == Capped([emoji] + Others(recent, emoji))
  {
    out := [emoji];
    var i := 0;
    ghost var all := [emoji] + Others(recent, emoji);
    assert recent[0..] == recent;
    while i < |recent| && |out| < LIMIT
      invariant |out| <= LIMIT && SoFar(recent, emoji, i, out, all)
    {
      SoFarNext(recent, emoji, i, out, all);
      if Key(recent[i]) != Key(emoji) {
        out := out + [recent[i]];
      }
      i := i + 1;
    }
    SoFarDone(recent, emoji, i, out, all);
  }

  /** The list so far, and the others among what is left, are all. */
  ghost predicate SoFar(recent: seq<Text>, emoji: Text, i: nat, out: seq<Text>, all: seq<Text>) {
    i <= |recent| && out + Others(recent[i..], emoji) == all
  }

  lemma SoFarNext(recent: seq<Text>, emoji: Text, i: nat, out: seq<Text>, all: seq<Text>)
    requires SoFar(recent, emoji, i, out, all) && i < |recent|
    ensures SoFar(recent, emoji, i + 1, if Key(recent[i]) != Key(emoji) then out + [recent[i]] else out, all)
  {
    var rest := recent[i..];
    assert rest[0] == recent[i] && rest[1..] == recent[i + 1..];
    Assoc(out, [recent[i]], Others(recent[i + 1..], emoji));
  }

  lemma SoFarDone(recent: seq<Text>, emoji: Text, i: nat, out: seq<Text>, all: seq<Text>)
    requires SoFar(recent, emoji, i, out, all) && |out| <= LIMIT && (i == |recent| || |out| == LIMIT)
    ensures out == Capped(all)
  {
    if i == |recent| {
      assert Others(recent[i..], emoji) == [];
    }
  }

  // ----- the reference: a history, newest first, each emoji once -----

  /** Each key's newest spelling, in the order last chosen. `newest` is newest first. */
  function OncePerKey(newest: seq<Text>): seq<Text> {
    if newest == [] then [] else [newest[0]] + Others(OncePerKey(newest[1..]), newest[0])
  }

  function Reversed<T>(s: seq<T>): seq<T> {
    if s == [] then [] else Reversed(s[1..]) + [s[0]]
  }

  /** The list after choosing these emoji, oldest first, from an empty list. */
  function AfterChoices(history: seq<Text>): seq<Text> {
    if history == [] then []
    else
      var last := history[|history| - 1];
      Capped([last] + Others(AfterChoices(history[..|history| - 1]), last))
  }

  method ChooseAll(history: seq<Text>) returns (recent: seq<Text>)
    ensures recent == AfterChoices(history)
  {
    recent := [];
    for n := 0 to |history|
      invariant recent == AfterChoices(history[..n])
    {
      assert history[..n + 1][..n] == history[..n];
      recent := Remember(recent, history[n]);
    }
    assert history[..|history|] == history;
  }

  predicate KeysDistinct(s: seq<Text>) {
    forall i, j :: 0 <= i < j < |s| ==> Key(s[i]) != Key(s[j])
  }

  lemma {:induction false} OthersKeepDistinct(s: seq<Text>, emoji: Text)
    requires KeysDistinct(s)
    ensures KeysDistinct(Others(s, emoji))
    ensures forall o <- Others(s, emoji) :: o in s && Key(o) != Key(emoji)
  {
    if s == [] {
    } else {
      assert forall o <- s[1..] :: o in s;
      OthersKeepDistinct(s[1..], emoji);
      var rest := Others(s[1..], emoji);
      forall o | o in rest
        ensures Key(o) != Key(s[0])
      {
        var j :| 0 <= j < |s[1..]| && s[1..][j] == o;
        assert s[j + 1] == o;
      }
    }
  }

  lemma {:induction false} OncePerKeyDistinct(newest: seq<Text>)
    ensures KeysDistinct(OncePerKey(newest))
  {
    if newest == [] {
    } else {
      OncePerKeyDistinct(newest[1..]);
      OthersKeepDistinct(OncePerKey(newest[1..]), newest[0]);
    }
  }

  lemma {:induction false} NoOthersLeftOut(s: seq<Text>, emoji: Text)
    requires forall o <- s :: Key(o) != Key(emoji)
    ensures Others(s, emoji) == s
  {
    if s == [] {
    } else {
      assert s[0] in s && forall o <- s[1..] :: o in s;
      NoOthersLeftOut(s[1..], emoji);
    }
  }

  /** Of a list with distinct keys at most one entry is left out, so its first `n` entries
      decide the first `n - 1` of the others, and cutting early loses nothing. */
  lemma {:induction false} OthersOfPrefix(s: seq<Text>, emoji: Text, n: nat)
    requires KeysDistinct(s) && 0 < n <= |s|
    ensures |Others(s[..n], emoji)| >= n - 1 && |Others(s, emoji)| >= n - 1
    ensures Others(s[..n], emoji)[..n - 1] == Others(s, emoji)[..n - 1]
  {
    assert s[..n][1..] == s[1..][..n - 1];
    if Key(s[0]) == Key(emoji) {
      forall o | o in s[1..]
        ensures Key(o) != Key(emoji)
      {
        var j :| 0 <= j < |s[1..]| && s[1..][j] == o;
        assert s[j + 1] == o;
      }
      NoOthersLeftOut(s[1..], emoji);
      assert forall o <- s[1..][..n - 1] :: o in s[1..];
      NoOthersLeftOut(s[1..][..n - 1], emoji);
    } else if n > 1 {
      OthersOfPrefix(s[1..], emoji, n - 1);
      var a, b := Others(s[1..][..n - 1], emoji), Others(s[1..], emoji);
      assert ([s[0]] + a)[..n - 1] == [s[0]] + a[..n - 2];
      assert ([s[0]] + b)[..n - 1] == [s[0]] + b[..n - 2];
    }
  }

  /** One choice on a cut list is that choice on the whole, then cut. */
  lemma CappedOnce(s: seq<Text>, emoji: Text)
    requires KeysDistinct(s)
    ensures Capped([emoji] + Others(Capped(s), emoji)) == Capped([emoji] + Others(s, emoji))
  {
    if |s| > LIMIT {
      OthersOfPrefix(s, emoji, LIMIT);
      CappedFirst(emoji, Others(s[..LIMIT], emoji));
      CappedFirst(emoji, Others(s, emoji));
    }
  }

  lemma CappedFirst(emoji: Text, others: seq<Text>)
    requires |others| >= LIMIT - 1
    ensures Capped([emoji] + others) == [emoji] + others[..LIMIT - 1]
  {
  }

  lemma {:induction false} ReversedLast<T>(s: seq<T>)
    requires s != []
    ensures Reversed(s) == [s[|s| - 1]] + Reversed(s[..|s| - 1])
  {
    if |s| <= 1 {
    } else {
      ReversedLast(s[1..]);
      assert s[1..][..|s| - 2] == s[..|s| - 1][1..];
    }
  }

  /** After any history from an empty list: the first 40 of the emoji chosen, newest first,
      each once, as last spelled. Cutting at every step is cutting once at the end. */
  lemma {:induction false} RecentIsHistory(history: seq<Text>)
    ensures AfterChoices(history) == Capped(OncePerKey(Reversed(history)))
    ensures KeysDistinct(AfterChoices(history)) && |AfterChoices(history)| <= LIMIT
  {
    OncePerKeyDistinct(Reversed(history));
    if history == [] {
    } else {
      var init, last := history[..|history| - 1], history[|history| - 1];
      RecentIsHistory(init);
      ReversedLast(history);
      assert Reversed(history)[1..] == Reversed(init);
      OncePerKeyDistinct(Reversed(init));
      CappedOnce(OncePerKey(Reversed(init)), last);
    }
  }

  /** An entry of the reference is an emoji not chosen since in any spelling. */
  lemma {:induction false} OncePerKeyIsNewest(newest: seq<Text>, emoji: Text)
    ensures emoji in OncePerKey(newest)
            <==> exists i :: 0 <= i < |newest| && newest[i] == emoji
                   && forall j :: 0 <= j < i ==> Key(newest[j]) != Key(emoji)
  {
    if newest == [] {
    } else {
      OncePerKeyIsNewest(newest[1..], emoji);
      InOthers(OncePerKey(newest[1..]), newest[0], emoji);
      var rest := newest[1..];
      if i :| 0 <= i < |rest| && rest[i] == emoji && forall j :: 0 <= j < i ==> Key(rest[j]) != Key(emoji) {
        assert newest[i + 1] == emoji;
        if Key(newest[0]) != Key(emoji) {
          assert forall j :: 0 < j < i + 1 ==> newest[j] == rest[j - 1];
        }
      }
      if i :| 0 < i < |newest| && newest[i] == emoji && forall j :: 0 <= j < i ==> Key(newest[j]) != Key(emoji) {
        assert rest[i - 1] == emoji && forall j :: 0 <= j < i - 1 ==> rest[j] == newest[j + 1];
      }
    }
  }

  lemma {:induction false} InOthers(s: seq<Text>, emoji: Text, o: Text)
    ensures o in Others(s, emoji) <==> o in s && Key(o) != Key(emoji)
  {
    if s == [] {
    } else {
      InOthers(s[1..], emoji, o);
      assert o in s <==> o == s[0] || o in s[1..];
    }
  }

  lemma {:induction false} OthersConcat(a: seq<Text>, b: seq<Text>, emoji: Text)
    ensures Others(a + b, emoji) == Others(a, emoji) + Others(b, emoji)
  {
    if a == [] {
      ConcatNone(b);
    } else {
      ConcatFirst(a, b);
      OthersConcat(a[1..], b, emoji);
      Assoc([a[0]], Others(a[1..], emoji), Others(b, emoji));
    }
  }

  /** The first of each key: one more in front takes the others of its key out. */
  lemma {:induction false} FirstsWith(x: Text, s: seq<Text>, n: nat)
    requires n <= |s|
    ensures Firsts([x] + s, Key, n + 1) == [x] + Others(Firsts(s, Key, n), x)
  {
    if n == 0 {
      FirstsWithNone(x, s);
    } else {
      FirstsWith(x, s, n - 1);
      FirstsWithNext(x, s, n);
    }
  }

  lemma FirstsWithNone(x: Text, s: seq<Text>)
    ensures Firsts([x] + s, Key, 1) == [x] + Others(Firsts(s, Key, 0), x)
  {
    assert Firsts([x] + s, Key, 0) == [];
    ConcatNone([x]);
  }

  lemma FirstsWithNext(x: Text, s: seq<Text>, n: nat)
    requires 0 < n <= |s| && Firsts([x] + s, Key, n) == [x] + Others(Firsts(s, Key, n - 1), x)
    ensures Firsts([x] + s, Key, n + 1) == [x] + Others(Firsts(s, Key, n), x)
  {
    assert ([x] + s)[n] == s[n - 1];
    SeenWith(x, s, n);
    FirstsOne(x, s[n - 1], Firsts(s, Key, n - 1), exists j :: 0 <= j < n - 1 && Key(s[j]) == Key(s[n - 1]));
  }

  lemma FirstsOne(x: Text, u: Text, firsts: seq<Text>, seen: bool)
    ensures [x] + Others(firsts + (if seen then [] else [u]), x)
            == [x] + Others(firsts, x) + (if Key(x) == Key(u) || seen then [] else [u])
  {
    OthersConcat(firsts, if seen then [] else [u], x);
    OthersOne(u, x);
  }

  lemma OthersOne(u: Text, x: Text)
    ensures Others([u], x) == if Key(u) == Key(x) then [] else [u]
  {
    assert [u][1..] == [];
  }

  lemma SeenWith(x: Text, s: seq<Text>, n: nat)
    requires 0 < n <= |s|
    ensures (exists j :: 0 <= j < n && Key(([x] + s)[j]) == Key(([x] + s)[n]))
            <==> Key(x) == Key(s[n - 1]) || exists j :: 0 <= j < n - 1 && Key(s[j]) == Key(s[n - 1])
  {
    var all := [x] + s;
    assert all[0] == x && forall j :: 1 <= j <= n ==> all[j] == s[j - 1];
    if j :| 0 <= j < n - 1 && Key(s[j]) == Key(s[n - 1]) {
      assert Key(all[j + 1]) == Key(all[n]);
    }
    if Key(x) == Key(s[n - 1]) {
      assert Key(all[0]) == Key(all[n]);
    }
    if j :| 0 <= j < n && Key(all[j]) == Key(all[n]) {
      assert j > 0 ==> Key(s[j - 1]) == Key(s[n - 1]);
    }
  }

  /** The reference is the history, newest first, less every emoji whose key came earlier. */
  lemma {:induction false} OncePerKeyIsFirsts(newest: seq<Text>)
    ensures OncePerKey(newest) == Firsts(newest, Key, |newest|)
  {
    if newest == [] {
    } else {
      OncePerKeyIsFirsts(newest[1..]);
      OncePerKeyWith(newest[0], newest[1..]);
      assert newest == [newest[0]] + newest[1..];
    }
  }

  lemma OncePerKeyWith(x: Text, rest: seq<Text>)
    requires OncePerKey(rest) == Firsts(rest, Key, |rest|)
    ensures OncePerKey([x] + rest) == Firsts([x] + rest, Key, |rest| + 1)
  {
    ConsRest(x, rest);
    FirstsWith(x, rest, |rest|);
  }

  lemma {:induction false} ReversedAt<T>(s: seq<T>, k: nat)
    requires k < |s|
    ensures |Reversed(s)| == |s| && Reversed(s)[k] == s[|s| - 1 - k]
  {
    if |s| == 1 {
    } else {
      ReversedAt(s[1..], if k < |s| - 1 then k else 0);
    }
  }

  /** After any history: of the emoji chosen, newest first and each key at its newest, forty. */
  lemma RecentIsFirstForty(history: seq<Text>, newest: seq<Text>)
    requires |newest| == |history| && forall k :: 0 <= k < |newest| ==> newest[k] == history[|history| - 1 - k]
    ensures var all := Firsts(newest, Key, |newest|);
            AfterChoices(history) == if |all| <= 40 then all else all[..40]
  {
    forall k | 0 <= k < |history|
      ensures |Reversed(history)| == |history| && Reversed(history)[k] == newest[k]
    {
      ReversedAt(history, k);
    }
    if history == [] {
      assert Reversed(history) == [] == newest;
    } else {
      ReversedAt(history, 0);
      assert Reversed(history) == newest;
    }
    RecentIsHistory(history);
    OncePerKeyIsFirsts(newest);
  }
}
