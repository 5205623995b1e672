/** The scanner and the tags of a text that is StyledText already. */
module TagSafety {
  import opened SeqFacts
  import opened Utf16
  import opened EmojiTables
  import opened EmojiScanner
  import opened PointLexer
  import opened EmojiGenerator
  import opened Escaping
  import opened ShimMarkdown
  import opened Meaning

  /** A `<` before unit `i` is not closed before it. */
  ghost predicate OpenBefore(s: Text, i: nat)
    requires i <= |s|
  {
    exists j :: 0 <= j < i && s[j] == OPEN && forall m :: j < m < i ==> s[m] != CLOSE
  }

  /** Unit `p` belongs to a tag, its `<` and `>` included. */
  ghost predicate OfTag(s: Text, p: nat)
    requires p < |s|
  {
    s[p] == OPEN || OpenBefore(s, p)
  }

  lemma OpenStep(s: Text, i: nat)
    requires i < |s|
    ensures OpenBefore(s, i + 1) <==> s[i] == OPEN || (s[i] != CLOSE && OpenBefore(s, i))
  {
    if s[i] != CLOSE && OpenBefore(s, i) {
      var j :| 0 <= j < i && s[j] == OPEN && forall m :: j < m < i ==> s[m] != CLOSE;
      assert forall m :: j < m < i + 1 ==> s[m] != CLOSE;
    }
    if OpenBefore(s, i + 1) && s[i] != OPEN {
      var j :| 0 <= j < i + 1 && s[j] == OPEN && forall m :: j < m < i + 1 ==> s[m] != CLOSE;
      assert j < i;
    }
  }

  lemma {:induction false} StillClosed(s: Text, i: nat, p: nat)
    requires i <= p <= |s| && !OpenBefore(s, i)
    requires forall m :: i <= m < p ==> s[m] != OPEN
    ensures !OpenBefore(s, p)
    decreases p - i
  {
    if i == p {
    } else {
      OpenStep(s, i);
      StillClosed(s, i + 1, p);
    }
  }

  /** Where a join among these units takes a `<`: it follows the joiner directly. */
  predicate JoinTakesOpen(s: Text, i: nat, end: nat)
    requires end <= |s|
  {
    exists p :: i < p < end && s[p] == OPEN && s[p - 1] == JOINER
  }

  lemma {:induction false} TailHasNoOpen(s: Text, end: nat)
    requires end <= |s| && !JoinTakesOpen(s, end, TailEnd(s, end))
    ensures forall p :: end <= p < TailEnd(s, end) ==> s[p] != OPEN
    decreases |s| - end
  {
    if end == |s| {
    } else {
      var more := CodeAt(s, end);
      if IsModifier(more) {
        TailHasNoOpen(s, end + Width(more));
      } else if more == JOINER && end + 1 < |s| {
        TailHasNoOpen(s, end + 1 + Width(CodeAt(s, end + 1)));
      }
    }
  }

  lemma EmojiHasNoOpen(t: Tables, s: Text, i: nat)
    requires i < |s| && s[i] != OPEN && !JoinTakesOpen(s, i, TriedEnd(t, s, i))
    ensures forall p :: i <= p < TriedEnd(t, s, i) ==> s[p] != OPEN
  {
    var after := i + Width(CodeAt(s, i));
    if TriedEnd(t, s, i) == TailEnd(s, after) {
      TailHasNoOpen(s, after);
    }
  }

  /** What is tried outside a tag stays outside. */
  lemma EmojiOutsideTags(t: Tables, s: Text, i: nat)
    requires i < |s| && s[i] != OPEN && !OpenBefore(s, i) && !JoinTakesOpen(s, i, TriedEnd(t, s, i))
    ensures !OpenBefore(s, TriedEnd(t, s, i))
    ensures OutsideTags(s, i, TriedEnd(t, s, i))
  {
    EmojiHasNoOpen(t, s, i);
    StillClosed(s, i, TriedEnd(t, s, i));
    forall p | i <= p < TriedEnd(t, s, i)
      ensures !OfTag(s, p)
    {
      StillClosed(s, i, p);
    }
  }

  ghost predicate OutsideTags(s: Text, i: nat, end: nat)
    requires end <= |s|
  {
    forall p :: i <= p < end ==> !OfTag(s, p)
  }

  lemma OutsideHasNoOpen(s: Text, i: nat, end: nat)
    requires end <= |s| && OutsideTags(s, i, end)
    ensures !JoinTakesOpen(s, i, end)
  {
    forall p | i <= p < end
      ensures s[p] != OPEN
    {
      assert !OfTag(s, p);
    }
  }

  /** A position the scan of a styled text looks at, and whether it takes a tag to be open there. */
  datatype Visit = Visit(at: nat, inTag: bool)

  /** Whether the scan looks for an emoji on this visit. */
  predicate Tries(s: Text, v: Visit)
    requires v.at < |s|
  {
    !v.inTag && s[v.at] != OPEN
  }

  function Onward(t: Tables, s: Text, v: Visit): (next: Visit)
    requires v.at < |s|
    ensures v.at < next.at <= |s|
  {
    if !Tries(s, v) then Visit(v.at + 1, s[v.at] != CLOSE)
    else Visit(if TriedEnd(t, s, v.at) == v.at then v.at + 1 else TriedEnd(t, s, v.at), false)
  }

  function Visits(t: Tables, s: Text, v: Visit): (visits: seq<Visit>)
    requires v.at <= |s|
    ensures forall w <- visits :: w.at < |s|
    decreases |s| - v.at
  {
    if v.at == |s| then [] else [v] + Visits(t, s, Onward(t, s, v))
  }

  const FIRST: Visit := Visit(0, false)

  /** No emoji the scan tries joins a `<`. */
  predicate NoTagTaken(t: Tables, s: Text, visits: seq<Visit>)
    requires forall v <- visits :: v.at < |s|
  {
    forall v <- visits :: Tries(s, v) ==> !JoinTakesOpen(s, v.at, TriedEnd(t, s, v.at))
  }

  /** On every visit the scan knows whether a tag is open, and what it tries is no part of one. */
  ghost predicate TagsKnown(t: Tables, s: Text, visits: seq<Visit>)
    requires forall v <- visits :: v.at < |s|
  {
    forall v <- visits ::
      && (v.inTag <==> OpenBefore(s, v.at))
      && (Tries(s, v) ==> OutsideTags(s, v.at, TriedEnd(t, s, v.at)))
  }

  lemma OnwardAgrees(t: Tables, s: Text, v: Visit)
    requires v.at < |s| && (v.inTag <==> OpenBefore(s, v.at))
    requires Tries(s, v) ==> !JoinTakesOpen(s, v.at, TriedEnd(t, s, v.at))
    ensures Onward(t, s, v).inTag <==> OpenBefore(s, Onward(t, s, v).at)
    ensures Tries(s, v) ==> OutsideTags(s, v.at, TriedEnd(t, s, v.at))
  {
    OpenStep(s, v.at);
    if Tries(s, v) {
      EmojiOutsideTags(t, s, v.at);
    }
  }

  lemma {:induction false} VisitsAgree(t: Tables, s: Text, v: Visit)
    requires v.at <= |s| && (v.inTag <==> OpenBefore(s, v.at)) && NoTagTaken(t, s, Visits(t, s, v))
    ensures TagsKnown(t, s, Visits(t, s, v))
    decreases |s| - v.at
  {
    if v.at == |s| {
    } else {
      assert v in Visits(t, s, v);
      OnwardAgrees(t, s, v);
      VisitsAgree(t, s, Onward(t, s, v));
    }
  }

  /** The scan knows the tags of a styled text, and keeps its hands off them, exactly when no
      emoji it tries joins a `<` to it. */
  lemma TagsKnownExactly(t: Tables, s: Text)
    ensures TagsKnown(t, s, Visits(t, s, FIRST)) <==> NoTagTaken(t, s, Visits(t, s, FIRST))
  {
    var visits := Visits(t, s, FIRST);
    if NoTagTaken(t, s, visits) {
      VisitsAgree(t, s, FIRST);
    }
    if TagsKnown(t, s, visits) {
      forall v | v in visits && Tries(s, v)
        ensures !JoinTakesOpen(s, v.at, TriedEnd(t, s, v.at))
      {
        OutsideHasNoOpen(s, v.at, TriedEnd(t, s, v.at));
      }
    }
  }

  /** No tag opens directly after a joiner. */
  predicate NoTagJoined(s: Text) {
    forall j :: 0 < j < |s| && s[j] == OPEN ==> s[j - 1] != JOINER
  }

  /** What is tried on these visits and drawn. */
  function DrawnOn(t: Tables, s: Text, visits: seq<Visit>): seq<Cut>
    requires forall v <- visits :: v.at < |s|
  {
    if visits == [] then []
    else
      var v := visits[0];
      (if Tries(s, v) && TriedEnd(t, s, v.at) > v.at then CutHere(t, s, v.at, TriedEnd(t, s, v.at)) else [])
      + DrawnOn(t, s, visits[1..])
  }

  /** The visits are the scan's: what it returns is what it draws on them, in their order. */
  lemma {:induction false} ScanIsVisits(t: Tables, s: Text, v: Visit)
    requires v.at <= |s|
    ensures Scan(t, s, true, v.inTag, v.at) == DrawnOn(t, s, Visits(t, s, v))
    decreases |s| - v.at
  {
    if v.at == |s| {
    } else {
      var next := Onward(t, s, v);
      ScanIsVisits(t, s, next);
      ConsRest(v, Visits(t, s, next));
    }
  }

  lemma {:induction false} CutsAreTried(t: Tables, s: Text, v: Visit)
    requires v.at <= |s|
    ensures forall c <- Scan(t, s, true, v.inTag, v.at) ::
              exists w <- Visits(t, s, v) :: w.at == c.start && Tries(s, w)
    decreases |s| - v.at
  {
    if v.at == |s| {
    } else {
      assert v in Visits(t, s, v);
      CutsAreTried(t, s, Onward(t, s, v));
    }
  }

  /** Where no tag opens directly after a joiner, the scan knows at every position it looks at
      whether a tag is open, and no emoji it cuts has a unit of a tag. */
  lemma TagsUntouched(t: Tables, s: Text)
    requires NoTagJoined(s)
    ensures TagsKnown(t, s, Visits(t, s, FIRST))
    ensures forall c <- Cuts(t, s, true) :: c.end <= |s| && OutsideTags(s, c.start, c.end)
  {
    TagsKnownExactly(t, s);
    CutsAreEmoji(t, s, true);
    CutsAreTried(t, s, FIRST);
    forall c | c in Cuts(t, s, true)
      ensures c.end <= |s| && OutsideTags(s, c.start, c.end)
    {
      assert CutOf(t, s, c);
      var v :| v in Visits(t, s, FIRST) && v.at == c.start && Tries(s, v);
    }
  }

  // ----- exactly when a tag is touched -----

  /** Some unit of a tag is in a cut. */
  ghost predicate TagTouched(t: Tables, s: Text) {
    exists c <- Cuts(t, s, true) :: c.end <= |s| && !OutsideTags(s, c.start, c.end)
  }

  predicate NoBracket(s: Text, i: nat, j: nat)
    requires j <= |s|
  {
    forall m :: i <= m < j ==> s[m] != OPEN && s[m] != CLOSE
  }

  /** From `end` on, the scan draws an emoji before it meets another bracket. */
  predicate DrawsInside(t: Tables, s: Text, end: nat)
    requires end <= |s|
  {
    exists c <- Scan(t, s, true, false, end) :: c.start <= |s| && NoBracket(s, end, c.start)
  }

  /** On this visit a join takes a `<`, and either the emoji is drawn, tag and all, or it stops
      inside the tag and the scan draws what it finds there. */
  ghost predicate TakesTag(t: Tables, s: Text, v: Visit)
    requires v.at < |s|
  {
    var end := TriedEnd(t, s, v.at);
    && Tries(s, v) && JoinTakesOpen(s, v.at, end)
    && (Drawable(t, s, v.at, end).Some? || (OpenBefore(s, end) && DrawsInside(t, s, end)))
  }

  lemma OpenThrough(s: Text, i: nat, j: nat)
    requires i <= j <= |s| && forall m :: i <= m < j ==> s[m] != CLOSE
    ensures OpenBefore(s, i) ==> OpenBefore(s, j)
    ensures OpenBefore(s, j) && (forall m :: i <= m < j ==> s[m] != OPEN) ==> OpenBefore(s, i)
  {
    if OpenBefore(s, i) {
      var k :| 0 <= k < i && s[k] == OPEN && forall m :: k < m < i ==> s[m] != CLOSE;
      assert s[k] == OPEN && forall m :: k < m < j ==> s[m] != CLOSE;
    }
  }

  /** Where a tag is open, its last `<`. */
  lemma {:induction false} LastOpen(s: Text, p: nat) returns (k: nat)
    requires p <= |s| && OpenBefore(s, p)
    ensures k < p && s[k] == OPEN && NoBracket(s, k + 1, p)
  {
    OpenStep(s, p - 1);
    if s[p - 1] == OPEN {
      k := p - 1;
    } else {
      k := LastOpen(s, p - 1);
    }
  }

  /** A cut with a unit of a tag has its `<`, or starts inside it. */
  lemma TouchedCut(s: Text, c: Cut)
    requires c.start < c.end <= |s|
    ensures !OutsideTags(s, c.start, c.end)
            <==> OpenBefore(s, c.start) || exists p :: c.start <= p < c.end && s[p] == OPEN
  {
    if OpenBefore(s, c.start) {
      assert OfTag(s, c.start);
    } else if p :| c.start <= p < c.end && s[p] == OPEN {
      assert OfTag(s, p);
    } else {
      forall p | c.start <= p < c.end
        ensures !OfTag(s, p)
      {
        StillClosed(s, c.start, p);
      }
    }
  }

  lemma CutsOnwards(t: Tables, s: Text, v: Visit)
    requires v.at <= |s|
    ensures forall c <- Scan(t, s, true, v.inTag, v.at) :: v.at <= c.start
  {
    ScanOrdered(t, s, true, v.inTag, v.at);
    OrderedBound(Scan(t, s, true, v.inTag, v.at), v.at, |s|);
  }

  /** What the scan draws from the next visit on, it draws from this one on; and what else it
      draws from this one on, it draws here. */
  lemma ScanOnward(t: Tables, s: Text, v: Visit, c: Cut)
    requires v.at < |s|
    ensures var next := Onward(t, s, v);
            c in Scan(t, s, true, v.inTag, v.at)
            <==> c in Scan(t, s, true, next.inTag, next.at)
                 || (Tries(s, v) && TriedEnd(t, s, v.at) > v.at && c in CutHere(t, s, v.at, TriedEnd(t, s, v.at)))
  {
  }

  /** Inside a tag it has seen open, the scan draws nothing up to the tag's `>`. */
  lemma {:induction false} NothingInTag(t: Tables, s: Text, i: nat, c: Cut)
    requires i <= c.start < |s| && forall m :: i <= m < c.start ==> s[m] != CLOSE
    ensures c !in Scan(t, s, true, true, i)
    decreases c.start - i
  {
    var v := Visit(i, true);
    ScanOnward(t, s, v, c);
    if i < c.start {
      NothingInTag(t, s, i + 1, c);
    } else {
      CutsOnwards(t, s, Onward(t, s, v));
    }
  }

  /** A cut inside a tag comes after a visit that took the tag's `<`. */
  lemma {:induction false} WhoTookIt(t: Tables, s: Text, v: Visit, k: nat, c: Cut) returns (w: Visit)
    requires v.at <= k < c.start < |s| && s[k] == OPEN && NoBracket(s, k + 1, c.start)
    requires c in Scan(t, s, true, v.inTag, v.at)
    ensures w in Visits(t, s, v) && w.at < k < TriedEnd(t, s, w.at) <= c.start && Tries(s, w)
    ensures c in Scan(t, s, true, false, TriedEnd(t, s, w.at))
    decreases |s| - v.at
  {
    var next := Onward(t, s, v);
    ScanOnward(t, s, v, c);
    if next.at <= k {
      w := WhoTookIt(t, s, next, k, c);
    } else {
      if v.at == k {
        NothingInTag(t, s, k + 1, c);
      }
      CutsOnwards(t, s, next);
      w := v;
    }
  }

  /** A visit with a cut inside the tag it left open, or a drawn emoji with a `<`, touches. */
  lemma {:induction false} TakingTouches(t: Tables, s: Text, v: Visit, w: Visit) returns (c: Cut)
    requires v.at <= |s| && w in Visits(t, s, v) && TakesTag(t, s, w)
    ensures c in Scan(t, s, true, v.inTag, v.at) && c.end <= |s| && !OutsideTags(s, c.start, c.end)
    decreases |s| - v.at
  {
    if v == w {
      c := TakerTouches(t, s, w);
    } else {
      c := TakingTouches(t, s, Onward(t, s, v), w);
    }
    ScanOnward(t, s, v, c);
  }

  lemma TakerTouches(t: Tables, s: Text, w: Visit) returns (c: Cut)
    requires w.at < |s| && TakesTag(t, s, w)
    ensures c in Scan(t, s, true, w.inTag, w.at) && c.end <= |s| && !OutsideTags(s, c.start, c.end)
  {
    var end := TriedEnd(t, s, w.at);
    if Drawable(t, s, w.at, end).Some? {
      c := Cut(w.at, end, Drawable(t, s, w.at, end).value);
    } else {
      c :| c in Scan(t, s, true, false, end) && c.start <= |s| && NoBracket(s, end, c.start);
      ScanCuts(t, s, true, false, end);
      CutsOnwards(t, s, Visit(end, false));
      OpenThrough(s, end, c.start);
    }
    ScanOnward(t, s, w, c);
    TouchedCut(s, c);
  }

  /** The other way: a cut with a unit of a tag was let in by a visit that took a `<`. */
  lemma TouchedIsTaken(t: Tables, s: Text, c: Cut) returns (w: Visit)
    requires c in Scan(t, s, true, false, 0) && c.end <= |s| && !OutsideTags(s, c.start, c.end)
    ensures w in Visits(t, s, FIRST) && TakesTag(t, s, w)
  {
    ScanCuts(t, s, true, false, 0);
    TouchedCut(s, c);
    if OpenBefore(s, c.start) {
      var k := LastOpen(s, c.start);
      w := WhoTookIt(t, s, FIRST, k, c);
      JoinTookIt(t, s, w.at, k);
      OpenThrough(s, TriedEnd(t, s, w.at), c.start);
    } else {
      CutsAreTried(t, s, FIRST);
      w :| w in Visits(t, s, FIRST) && w.at == c.start && Tries(s, w);
      var p :| c.start <= p < c.end && s[p] == OPEN;
      JoinTookIt(t, s, w.at, p);
    }
  }

  /** A `<` in an emoji that does not start with one was taken by a join. */
  lemma JoinTookIt(t: Tables, s: Text, i: nat, p: nat)
    requires i < |s| && i <= p < TriedEnd(t, s, i) && s[i] != OPEN && s[p] == OPEN
    ensures JoinTakesOpen(s, i, TriedEnd(t, s, i))
  {
    if !JoinTakesOpen(s, i, TriedEnd(t, s, i)) {
      EmojiHasNoOpen(t, s, i);
      assert false;
    }
  }

  /** For any tables and any text: a tag is touched exactly when the text is scanned and an emoji
      tried there joins a `<` and is drawn with it, or stops inside the tag with something to
      draw before the next bracket. */
  lemma TagTouchedExactly(t: Tables, s: Text)
    ensures TagTouched(t, s) <==> MayHold(t, s) && exists w <- Visits(t, s, FIRST) :: TakesTag(t, s, w)
  {
    if TagTouched(t, s) {
      var c :| c in Cuts(t, s, true) && c.end <= |s| && !OutsideTags(s, c.start, c.end);
      var w := TouchedIsTaken(t, s, c);
    }
    if w :| w in Visits(t, s, FIRST) && TakesTag(t, s, w) {
      var c := TakingTouches(t, s, FIRST, w);
    }
  }

  /** In any text, if no key has a `<` or `>`, no cut has. */
  lemma CutsHaveNoBrackets(t: Tables, s: Text, c: Cut)
    requires forall k <- t.byKey :: OPEN !in k && CLOSE !in k
    requires c in Cuts(t, s, true)
    ensures c.start < c.end <= |s| && OPEN !in s[c.start..c.end] && CLOSE !in s[c.start..c.end]
  {
    CutsAreEmoji(t, s, true);
    if OPEN in s[c.start..c.end] {
      CutUnitInKey(t, s, c, OPEN);
    }
    if CLOSE in s[c.start..c.end] {
      CutUnitInKey(t, s, c, CLOSE);
    }
  }

  // ----- a tag that is touched -----

  const GRIN: Text := [0xD83D, 0xDE00]
  const GRIN_ROWS: seq<Row> := [Row([0x1F600], "1f600", 0)]
  const GRIN_TABLE: Tables := Tables(map[GRIN := "1f600"], {}, {}, [Range(0xD83D, 0xD83D)])

  const ADDRESS: Text := [0x68, 0x74, 0x74, 0x70, 0x73, 0x3A, 0x2F, 0x2F, 0x65, 0x2F]  // https://e/
  const WORD: Text := [0x78]                                                           // x

  /** An emoji, a joiner, and a link to an address with an emoji in it, unit by unit. */
  const JOINED_LINK: Text :=
    (GRIN + [JOINER])
    + (([OPEN] + (A_OPEN + (ADDRESS + GRIN) + [QUOTE]) + [CLOSE]) + WORD + LINK_CLOSE)

  /** It is what the shim writes for that emoji, that joiner and `[x](https://e/...)`. */
  lemma JoinedLinkIsPushed()
    ensures JOINED_LINK == PushEscaped(GRIN + [JOINER]) + Link(ADDRESS + GRIN, WORD)
  {
    PushedAsIs(GRIN + [JOINER]);
    LinkAsIs(ADDRESS + GRIN, WORD);
  }

  lemma GrinTableGenerated()
    ensures TablesOf(GRIN_ROWS, GRIN_TABLE)
  {
    var row := GRIN_ROWS[0];
    assert Encode([0x1F600]) == EncodePoint(0x1F600) + Encode([]);
    assert WithoutSelectors([0x1F600]) == [0x1F600] + WithoutSelectors([]);
    assert RowKey(row) == GRIN;
    assert IsLastNamed(GRIN_ROWS, 1, GRIN, "1f600", 0);
    assert GRIN_TABLE.mayHold[0].lo <= Mark(GRIN) <= GRIN_TABLE.mayHold[0].hi;
  }

  /** Where the table has no emoji below U+10000, ASCII is passed over. */
  lemma {:induction false} ScanAscii(t: Tables, s: Text, i: nat, j: nat)
    requires i <= j <= |s| && t.bmpStarts == {}
    requires forall k :: i <= k < j ==> s[k] < 0x80 && s[k] != OPEN
    ensures Scan(t, s, true, false, i) == Scan(t, s, true, false, j)
    decreases j - i
  {
    if i == j {
    } else {
      assert CodeAt(s, i) == s[i];
      assert TriedEnd(t, s, i) == i;
      ScanAscii(t, s, i + 1, j);
    }
  }

  /** The emoji in the address: drawn as it would be in the text. */
  lemma GrinInLink()
    ensures Scan(GRIN_TABLE, JOINED_LINK, true, false, 4) == [Cut(22, 24, "1f600")]
  {
    var t, s := GRIN_TABLE, JOINED_LINK;
    ScanAscii(t, s, 4, 22);
    GrinDrawn();
    ScanAscii(t, s, 24, 27);
    NothingAfter();
    assert Scan(t, s, true, false, 22) == [Cut(22, 24, "1f600")] + Scan(t, s, true, false, 24);
  }

  lemma GrinDrawn()
    ensures |JOINED_LINK| == 31 && TriedEnd(GRIN_TABLE, JOINED_LINK, 22) == 24
    ensures Drawable(GRIN_TABLE, JOINED_LINK, 22, 24) == Some("1f600")
  {
    var t, s := GRIN_TABLE, JOINED_LINK;
    assert CodeAt(s, 22) == 0x1F600 && CodeAt(s, 24) == 0x22;
    assert TailEnd(s, 24) == 24 && EndOf(t, s, 22) == 24;
    assert s[22..24] == GRIN;
    GrinKey();
  }

  lemma GrinKey()
    ensures Key(GRIN) == GRIN
  {
    assert GRIN[1..] == [0xDE00] && GRIN[1..][1..] == [];
    assert Key(GRIN[1..]) == [0xDE00] + Key(GRIN[1..][1..]) == [0xDE00];
    assert Key(GRIN) == [GRIN[0]] + Key(GRIN[1..]) == GRIN;
  }

  /** The link's closing tag is passed over. */
  lemma NothingAfter()
    ensures |JOINED_LINK| == 31 && Scan(GRIN_TABLE, JOINED_LINK, true, false, 27) == []
  {
    var t, s := GRIN_TABLE, JOINED_LINK;
    assert s[27] == OPEN && s[28] != CLOSE && s[29] != CLOSE && s[30] == CLOSE && |s| == 31;
    assert Scan(t, s, true, false, 27) == Scan(t, s, true, true, 28) == Scan(t, s, true, true, 29)
           == Scan(t, s, true, true, 30) == Scan(t, s, true, false, 31) == [];
  }

  /** After a joiner a tag's `<` is taken for the code point joined, and what follows in the tag is
      scanned as text: a picture goes into the link's address. */
  lemma JoinedLinkIsTouched()
    ensures TablesOf(GRIN_ROWS, GRIN_TABLE)
    ensures JOINED_LINK == PushEscaped(GRIN + [JOINER]) + Link(ADDRESS + GRIN, WORD)
    ensures Cuts(GRIN_TABLE, JOINED_LINK, true) == [Cut(22, 24, "1f600")]
    ensures !OutsideTags(JOINED_LINK, 22, 24) && TagTouched(GRIN_TABLE, JOINED_LINK)
  {
    var t, s := GRIN_TABLE, JOINED_LINK;
    GrinTableGenerated();
    JoinedLinkIsPushed();
    assert s[3] == OPEN;
    assert CodeAt(s, 0) == 0x1F600 && CodeAt(s, 2) == JOINER && CodeAt(s, 4) == 0x61;
    assert TailEnd(s, 4) == 4 && TailEnd(s, 2) == 4;
    assert EndOf(t, s, 0) == 4;
    FirstNotDrawn();
    GrinInLink();
    assert Scan(t, s, true, false, 0) == [] + Scan(t, s, true, false, 4);
    assert InClass(t.mayHold, s[0]) by {
      assert t.mayHold[0].lo <= s[0] <= t.mayHold[0].hi;
    }
    LinkOpen();
    assert Cut(22, 24, "1f600") in Cuts(t, s, true);
  }

  lemma LinkOpen()
    ensures !OutsideTags(JOINED_LINK, 22, 24)
  {
    var s := JOINED_LINK;
    assert s[3] == OPEN && forall m :: 3 < m < 22 ==> s[m] != CLOSE;
    assert OpenBefore(s, 22);
    assert OfTag(s, 22);
  }

  lemma FirstNotDrawn()
    ensures Drawable(GRIN_TABLE, JOINED_LINK, 0, 4) == None
  {
    var s := JOINED_LINK[0..4];
    KeyKeeps(s, OPEN) by { assert s[3] == OPEN; }
    UntonedKeeps(Key(s), OPEN);
    assert OPEN !in GRIN;
  }
}
