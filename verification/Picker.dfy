/** The reaction picker's search: `search` of EmojiPicker.js over the text that `search_text` of
    scripts/fetch-emoji.py writes. */
module PickerSearch {
  import opened SeqFacts
  import opened Utf16
  import opened JsText
  import opened Escaping
  import opened PickerList

  // ----- words -----

  /** How many units of `s` come before white space. */
  function WordLength(s: Text, white: Unit -> bool): (n: nat)
    ensures n <= |s|
    ensures forall i :: 0 <= i < n ==> !white(s[i])
    ensures n < |s| ==> white(s[n])
  {
    if s == [] || white(s[0]) then 0 else 1 + WordLength(s[1..], white)
  }

  /** The runs between white space, as `split` leaves them once empty ones are dropped. */
  function Words(s: Text, white: Unit -> bool): (words: seq<Text>)
    ensures forall w <- words :: w != [] && forall u <- w :: !white(u)
    decreases |s|
  {
    if s == [] then []
    else if white(s[0]) then Words(s[1..], white)
    else
      var n := WordLength(s, white);
      [s[..n]] + Words(s[n..], white)
  }

  lemma {:induction false} WordLengthConcat(a: Text, b: Text, white: Unit -> bool)
    ensures WordLength(a + b, white)
            == if WordLength(a, white) < |a| then WordLength(a, white) else |a| + WordLength(b, white)
  {
    if a == [] {
      ConcatNone(b);
    } else {
      ConcatFirst(a, b);
      WordLengthConcat(a[1..], b, white);
    }
  }

  /** White space ends words: those before it come first, then those after it. */
  lemma {:induction false} WordsConcat(a: Text, u: Unit, b: Text, white: Unit -> bool)
    requires white(u)
    ensures Words(a + [u] + b, white) == Words(a, white) + Words(b, white)
    decreases |a|
  {
    var s := a + [u] + b;
    assert s == a + ([u] + b);
    if a == [] {
      assert s[0] == u && s[1..] == b;
      ConcatNone(Words(b, white));
    } else if white(a[0]) {
      assert s[1..] == a[1..] + [u] + b;
      WordsConcat(a[1..], u, b, white);
    } else {
      var n := WordLength(a, white);
      WordLengthConcat(a, [u] + b, white);
      assert s[..n] == a[..n] && s[n..] == a[n..] + [u] + b;
      WordsConcat(a[n..], u, b, white);
      Assoc([a[..n]], Words(a[n..], white), Words(b, white));
    }
  }

  /** A text without white space is one word. */
  lemma WordsOne(s: Text, white: Unit -> bool)
    requires s != [] && forall u <- s :: !white(u)
    ensures Words(s, white) == [s]
  {
    assert forall k :: 0 <= k < |s| ==> s[k] in s;
    assert s[..|s|] == s && s[|s|..] == [];
  }

  /** From `i` to `j` there is no white space, and there is on either side, or the end. */
  ghost predicate RunAt(s: Text, white: Unit -> bool, i: int, j: int) {
    && 0 <= i < j <= |s| && (forall k :: i <= k < j ==> !white(s[k]))
    && (i == 0 || white(s[i - 1])) && (j == |s| || white(s[j]))
  }

  /** `w` stands in `s` as a word. */
  ghost predicate IsWordOf(w: Text, s: Text, white: Unit -> bool) {
    exists i, j :: RunAt(s, white, i, j) && s[i..j] == w
  }

  /** The words of a text are what stands in it as words. */
  lemma {:induction false} WordsAreRuns(s: Text, white: Unit -> bool, w: Text)
    ensures w in Words(s, white) <==> IsWordOf(w, s, white)
    decreases |s|
  {
    if s == [] {
    } else if white(s[0]) {
      WordsAreRuns(s[1..], white, w);
      RunsShift(s, white, 1, w);
    } else {
      var n := WordLength(s, white);
      WordsAreRuns(s[n..], white, w);
      FirstRun(s, white, w);
    }
  }

  /** Past units that no word ends in or reaches over, the words are the same. */
  lemma RunsShift(s: Text, white: Unit -> bool, n: nat, w: Text)
    requires 0 < n <= |s| && white(s[n - 1]) && forall k :: 0 <= k < n ==> white(s[k])
    ensures IsWordOf(w, s, white) <==> IsWordOf(w, s[n..], white)
  {
    var t := s[n..];
    if i, j :| RunAt(t, white, i, j) && t[i..j] == w {
      assert RunAt(s, white, i + n, j + n) && s[i + n..j + n] == w;
    }
    if i, j :| RunAt(s, white, i, j) && s[i..j] == w {
      assert !white(s[i]);
      assert RunAt(t, white, i - n, j - n) && t[i - n..j - n] == w;
    }
  }

  /** A run is the first word, or starts past it. */
  lemma FirstOrLater(s: Text, white: Unit -> bool, i: int, j: int)
    requires s != [] && !white(s[0]) && RunAt(s, white, i, j)
    ensures var n := WordLength(s, white); (i == 0 && j == n) || i > n
  {
  }

  lemma RunInRest(s: Text, white: Unit -> bool, n: nat, i: int, j: int)
    requires n < i && n <= |s|
    ensures RunAt(s, white, i, j) <==> RunAt(s[n..], white, i - n, j - n)
    ensures RunAt(s, white, i, j) ==> s[i..j] == s[n..][i - n..j - n]
  {
    if RunAt(s[n..], white, i - n, j - n) {
      assert forall k :: i <= k < j ==> s[k] == s[n..][k - n];
    }
  }

  lemma FirstIsRun(s: Text, white: Unit -> bool)
    requires s != [] && !white(s[0])
    ensures var n := WordLength(s, white); RunAt(s, white, 0, n) && s[0..n] == s[..n]
    ensures var n := WordLength(s, white); forall i, j :: RunAt(s[n..], white, i, j) ==> i > 0
  {
    var n := WordLength(s, white);
    if n < |s| {
      assert s[n..][0] == s[n];
    }
  }

  lemma RunOfRest(s: Text, white: Unit -> bool, w: Text)
    requires s != [] && !white(s[0]) && IsWordOf(w, s[WordLength(s, white)..], white)
    ensures IsWordOf(w, s, white)
  {
    var n := WordLength(s, white);
    FirstIsRun(s, white);
    var i, j :| RunAt(s[n..], white, i, j) && s[n..][i..j] == w;
    RunInRest(s, white, n, i + n, j + n);
  }

  lemma RunOfFirst(s: Text, white: Unit -> bool, w: Text)
    requires s != [] && !white(s[0]) && IsWordOf(w, s, white)
    ensures var n := WordLength(s, white); w == s[..n] || IsWordOf(w, s[n..], white)
  {
    var n := WordLength(s, white);
    var i, j :| RunAt(s, white, i, j) && s[i..j] == w;
    FirstOrLater(s, white, i, j);
    if i > n {
      RunInRest(s, white, n, i, j);
    }
  }

  lemma FirstRun(s: Text, white: Unit -> bool, w: Text)
    requires s != [] && !white(s[0])
    ensures var n := WordLength(s, white);
            IsWordOf(w, s, white) <==> w == s[..n] || IsWordOf(w, s[n..], white)
  {
    if IsWordOf(w, s[WordLength(s, white)..], white) {
      RunOfRest(s, white, w);
    }
    if IsWordOf(w, s, white) {
      RunOfFirst(s, white, w);
    }
    FirstIsRun(s, white);
  }

  /** White space of Python's `str.split`. */
  predicate PythonWhite(u: Unit) {
    0x09 <= u <= 0x0D || 0x1C <= u <= 0x20 || u == 0x85 || u == 0xA0 || u == 0x1680
    || 0x2000 <= u <= 0x200A || u == 0x2028 || u == 0x2029 || u == 0x202F || u == 0x205F || u == 0x3000
  }

  // ----- what is written -----

  /** Each word once, where it first comes. */
  function Once(words: seq<Text>): seq<Text> {
    if words == [] then []
    else
      var init, last := Once(words[..|words| - 1]), words[|words| - 1];
      if last in init then init else init + [last]
  }

  /** JavaScript and Python agree on white space but for the separators below U+0020 and U+0085,
      which only Python has, and U+180E and U+FEFF, which only JavaScript has. */
  lemma WhiteSpacesDiffer(u: Unit)
    ensures IsWhite(u) <==> (PythonWhite(u) && !(0x1C <= u <= 0x1F) && u != 0x85) || u == 0x180E || u == 0xFEFF
  {
  }

  /** All words of the label and the tags, in order. */
  function AllWords(entries: seq<Text>, lower: Text -> Text): seq<Text> {
    if entries == [] then []
    else AllWords(entries[..|entries| - 1], lower) + Words(lower(entries[|entries| - 1]), PythonWhite)
  }

  function BySpaces(words: seq<Text>): Text {
    if words == [] then []
    else if |words| == 1 then words[0]
    else words[0] + [SPACE] + BySpaces(words[1..])
  }

  function Keywords(name: Text, tags: seq<Text>, lower: Text -> Text): seq<Text> {
    Once(AllWords([name] + tags, lower))
  }

  lemma OnceNext(before: seq<Text>, parts: seq<Text>, j: nat)
    requires j < |parts|
    ensures var words := Once(before + parts[..j]);
            Once(before + parts[..j + 1]) == if parts[j] in words then words else words + [parts[j]]
  {
    var all := before + parts[..j + 1];
    assert all[..|all| - 1] == before + parts[..j];
  }

  /** The words of one entry: a word of a tag that the name has too is not written again. */
  method SearchText(name: Text, tags: seq<Text>, lower: Text -> Text) returns (text: Text)
    ensures text == BySpaces(Keywords(name, tags, lower))
  {
    var words: seq<Text> := [];
    var entries := [name] + tags;
    for i := 0 to |entries|
      invariant words == Once(AllWords(entries[..i], lower))
    {
      var parts := Words(lower(entries[i]), PythonWhite);
      ghost var before := AllWords(entries[..i], lower);
      assert before + parts[..0] == before;
      for j := 0 to |parts|
        invariant words == Once(before + parts[..j])
      {
        OnceNext(before, parts, j);
        if parts[j] !in words {
          words := words + [parts[j]];
        }
      }
      assert parts[..|parts|] == parts;
      assert entries[..i + 1][..i] == entries[..i];
    }
    assert entries[..|entries|] == entries;
    text := BySpaces(words);
  }

  // ----- what is found -----

  predicate Has(entry: Entry, word: Text) {
    IndexOf([SPACE] + entry.words, [SPACE] + word, 0) >= 0
  }

  predicate HasAll(entry: Entry, words: seq<Text>) {
    forall w <- words :: Has(entry, w)
  }

  function Matching(list: seq<Entry>, words: seq<Text>): seq<Entry> {
    if list == [] then []
    else
      Matching(list[..|list| - 1], words)
      + if HasAll(list[|list| - 1], words) then [list[|list| - 1]] else []
  }

  /** What a search finds: nothing without a word. */
  function Found(list: seq<Entry>, query: Text, lower: Text -> Text): seq<Entry> {
    var words := Words(lower(query), IsWhite);
    if words == [] then [] else Matching(list, words)
  }

  method Search(list: seq<Entry>, query: Text, lower: Text -> Text) returns (found: seq<Entry>)
    ensures found == Found(list, query, lower)
  {
    var words := Words(lower(query), IsWhite);
    found := [];
    if |words| == 0 {
      return;
    }
    for i := 0 to |list|
      invariant found == Matching(list[..i], words)
    {
      assert list[..i + 1][..i] == list[..i];
      var matches := true;
      var w := 0;
      while w < |words| && matches
        invariant w <= |words|
        invariant matches <==> forall k :: 0 <= k < w ==> Has(list[i], words[k])
      {
        matches := IndexOf([SPACE] + list[i].words, [SPACE] + words[w], 0) >= 0;
        w := w + 1;
      }
      if matches {
        found := found + [list[i]];
      }
    }
    assert list[..|list|] == list;
  }

  // ----- a space and the word is the start of a keyword -----

  /** The keywords, each with a space before it. */
  function Spaced(words: seq<Text>): Text {
    if words == [] then [] else [SPACE] + words[0] + Spaced(words[1..])
  }

  lemma {:induction false} SpacedIsBySpaces(words: seq<Text>)
    requires words != []
    ensures Spaced(words) == [SPACE] + BySpaces(words)
  {
    if |words| <= 1 {
    } else {
      SpacedIsBySpaces(words[1..]);
      assert [SPACE] + words[0] + ([SPACE] + BySpaces(words[1..]))
             == [SPACE] + (words[0] + [SPACE] + BySpaces(words[1..]));
    }
  }

  lemma {:induction false} OccursShifted(a: Text, b: Text, term: Text, p: nat)
    ensures OccursAt(a + b, term, |a| + p) <==> OccursAt(b, term, p)
    decreases term
  {
    if term == [] || p >= |b| {
    } else {
      assert (a + b)[|a| + p] == b[p];
      OccursShifted(a, b, term[1..], p + 1);
    }
  }

  /** A word without spaces stands at the start of keyword and rest if the keyword has it. */
  lemma {:induction false} OccursFirst(head: Text, word: Text, rest: Text, w: Text)
    requires SPACE !in w && (rest != [] ==> rest[0] == SPACE)
    ensures OccursAt(head + word + rest, w, |head|) <==> w <= word
    decreases w
  {
    var s := head + word + rest;
    if w == [] {
    } else {
      if word == [] {
        assert rest != [] ==> s[|head|] == SPACE;
      } else {
        assert s[|head|] == word[0];
        assert head + word + rest == (head + [word[0]]) + word[1..] + rest;
        OccursFirst(head + [word[0]], word[1..], rest, w[1..]);
        assert w <= word <==> w[0] == word[0] && w[1..] <= word[1..];
      }
    }
  }

  ghost predicate StartsKeyword(words: seq<Text>, w: Text) {
    exists k <- words :: w <= k
  }

  lemma {:induction false} SpacedOccurs(words: seq<Text>, w: Text, p: nat)
    requires SPACE !in w && w != [] && forall k <- words :: SPACE !in k
    requires OccursAt(Spaced(words), [SPACE] + w, p)
    ensures StartsKeyword(words, w)
  {
    var s, term := Spaced(words), [SPACE] + w;
    assert term[1..] == w;
    var head, rest := [SPACE] + words[0], Spaced(words[1..]);
    assert words[0] in words && forall k <- words[1..] :: k in words;
    if p == 0 {
      OccursFirst([SPACE], words[0], rest, w);
    } else if p < |head| {
      assert false;
    } else {
      OccursShifted(head, rest, term, p - |head|);
      SpacedOccurs(words[1..], w, p - |head|);
    }
  }

  lemma {:induction false} StartOccurs(words: seq<Text>, w: Text) returns (p: nat)
    requires SPACE !in w && StartsKeyword(words, w)
    ensures p <= |Spaced(words)| && OccursAt(Spaced(words), [SPACE] + w, p)
  {
    var head, rest := [SPACE] + words[0], Spaced(words[1..]);
    assert ([SPACE] + w)[1..] == w;
    if w <= words[0] {
      OccursFirst([SPACE], words[0], rest, w);
      p := 0;
    } else {
      var k :| k in words && w <= k;
      assert k in words[1..];
      p := StartOccurs(words[1..], w);
      OccursShifted(head, rest, [SPACE] + w, p);
      p := p + |head|;
    }
  }

  /** An entry has a word exactly when one of its keywords starts with it. */
  lemma HasIsPrefix(entry: Entry, keywords: seq<Text>, w: Text)
    requires entry.words == BySpaces(keywords) && SPACE !in w && w != []
    requires forall k <- keywords :: SPACE !in k
    ensures Has(entry, w) <==> StartsKeyword(keywords, w)
  {
    var s, term := [SPACE] + entry.words, [SPACE] + w;
    if keywords == [] {
      assert s == [SPACE] && term[1..] == w;
      assert forall p: nat :: OccursAt(s, term, p) ==> p + |term| <= |s|;
    } else {
      SpacedIsBySpaces(keywords);
      if Has(entry, w) {
        SpacedOccurs(keywords, w, IndexOf(s, term, 0));
      }
      if StartsKeyword(keywords, w) {
        var p := StartOccurs(keywords, w);
        IndexIsFirst(s, term, 0, p);
      }
    }
  }

  /** Entries all of whose words start some keyword of theirs, in the list's order. */
  function StartingAll(list: seq<Entry>, keywords: seq<seq<Text>>, words: seq<Text>): seq<Entry>
    requires |list| == |keywords|
  {
    if list == [] then []
    else
      var n := |list| - 1;
      StartingAll(list[..n], keywords[..n], words)
      + if forall w <- words :: exists k <- keywords[n] :: w <= k then [list[n]] else []
  }

  /** Where each entry's text is its keywords joined, as written, a search finds exactly the
      entries of which every query word starts a keyword. */
  lemma {:induction false} SearchIsByKeyword(list: seq<Entry>, keywords: seq<seq<Text>>, words: seq<Text>)
    requires |list| == |keywords|
    requires forall i :: 0 <= i < |list| ==> list[i].words == BySpaces(keywords[i])
    requires forall ks <- keywords :: forall k <- ks :: SPACE !in k
    requires forall w <- words :: w != [] && SPACE !in w
    ensures Matching(list, words) == StartingAll(list, keywords, words)
  {
    if list == [] {
    } else {
      var n := |list| - 1;
      assert forall ks <- keywords[..n] :: ks in keywords;
      SearchIsByKeyword(list[..n], keywords[..n], words);
      assert keywords[n] in keywords;
      forall w | w in words
        ensures Has(list[n], w) <==> StartsKeyword(keywords[n], w)
      {
        HasIsPrefix(list[n], keywords[n], w);
      }
    }
  }

  lemma {:induction false} OnceWords(words: seq<Text>)
    ensures forall w <- Once(words) :: w in words
    ensures forall w <- words :: w in Once(words)
    ensures forall i, j :: 0 <= i < j < |Once(words)| ==> Once(words)[i] != Once(words)[j]
  {
    if words == [] {
    } else {
      OnceWords(words[..|words| - 1]);
    }
  }

  lemma {:induction false} AllWordsUnspaced(entries: seq<Text>, lower: Text -> Text)
    ensures forall w <- AllWords(entries, lower) :: w != [] && SPACE !in w
  {
    if entries == [] {
    } else {
      AllWordsUnspaced(entries[..|entries| - 1], lower);
      forall w | w in Words(lower(entries[|entries| - 1]), PythonWhite)
        ensures SPACE !in w
      {
        assert PythonWhite(SPACE);
      }
    }
  }

  /** Keywords are never empty, have no space in them, and come once each. */
  lemma KeywordsUnspaced(name: Text, tags: seq<Text>, lower: Text -> Text)
    ensures forall w <- Keywords(name, tags, lower) :: w != [] && SPACE !in w
    ensures forall i, j :: 0 <= i < j < |Keywords(name, tags, lower)| ==>
              Keywords(name, tags, lower)[i] != Keywords(name, tags, lower)[j]
  {
    AllWordsUnspaced([name] + tags, lower);
    OnceWords(AllWords([name] + tags, lower));
  }

  lemma QueryWordsUnspaced(query: Text, lower: Text -> Text)
    ensures forall w <- Words(lower(query), IsWhite) :: w != [] && SPACE !in w
  {
    forall w | w in Words(lower(query), IsWhite)
      ensures SPACE !in w
    {
      assert IsWhite(SPACE);
    }
  }

  /** Each word once, where it first comes. */
  lemma {:induction false} OnceIsFirsts(words: seq<Text>, n: nat)
    requires n <= |words|
    ensures Once(words[..n]) == Firsts(words, w => w, n)
  {
    if n == 0 {
    } else {
      OnceIsFirsts(words, n - 1);
      OnceWords(words[..n - 1]);
      assert words[..n][..n - 1] == words[..n - 1];
      assert words[n - 1] in words[..n - 1] <==> exists j :: 0 <= j < n - 1 && words[j] == words[n - 1];
    }
  }

  lemma {:induction false} AllWordsOf(entries: seq<Text>, lower: Text -> Text, w: Text)
    ensures w in AllWords(entries, lower)
            <==> exists i :: 0 <= i < |entries| && IsWordOf(w, lower(entries[i]), PythonWhite)
  {
    if entries == [] {
    } else {
      var n := |entries| - 1;
      AllWordsOf(entries[..n], lower, w);
      WordsAreRuns(lower(entries[n]), PythonWhite, w);
      if i :| 0 <= i < |entries| && IsWordOf(w, lower(entries[i]), PythonWhite) {
        assert i < n ==> entries[..n][i] == entries[i];
      }
    }
  }

  /** What stands as a word in the name or in a tag. */
  ghost predicate IsKeyword(k: Text, name: Text, tags: seq<Text>, lower: Text -> Text) {
    || IsWordOf(k, lower(name), PythonWhite)
    || exists i :: 0 <= i < |tags| && IsWordOf(k, lower(tags[i]), PythonWhite)
  }

  /** The keywords are the words of the name and the tags, each once, where it first comes. */
  lemma KeywordsAre(name: Text, tags: seq<Text>, lower: Text -> Text, k: Text)
    ensures k in Keywords(name, tags, lower) <==> IsKeyword(k, name, tags, lower)
    ensures var words := AllWords([name] + tags, lower);
            Keywords(name, tags, lower) == Firsts(words, w => w, |words|)
  {
    var entries, words := [name] + tags, AllWords([name] + tags, lower);
    OnceWords(words);
    AllWordsOf(entries, lower, k);
    if IsKeyword(k, name, tags, lower) {
      if IsWordOf(k, lower(name), PythonWhite) {
        assert entries[0] == name;
      } else {
        var i :| 0 <= i < |tags| && IsWordOf(k, lower(tags[i]), PythonWhite);
        assert entries[i + 1] == tags[i];
      }
    }
    if i :| 0 <= i < |entries| && IsWordOf(k, lower(entries[i]), PythonWhite) {
      assert i > 0 ==> entries[i] == tags[i - 1];
    }
    OnceIsFirsts(words, |words|);
    assert words[..|words|] == words;
  }

  /** Words joined by spaces are split into those words again. */
  lemma {:induction false} BySpacesSplits(words: seq<Text>)
    requires forall w <- words :: w != [] && forall u <- w :: !PythonWhite(u)
    ensures Words(BySpaces(words), PythonWhite) == words
  {
    if words == [] {
    } else {
      assert words[0] in words && forall w <- words[1..] :: w in words;
      WordsOne(words[0], PythonWhite);
      if |words| == 1 {
      } else {
        BySpacesSplits(words[1..]);
        WordsConcat(words[0], SPACE, BySpaces(words[1..]), PythonWhite);
      }
    }
  }

  lemma {:induction false} AllWordsAreWords(entries: seq<Text>, lower: Text -> Text)
    ensures forall w <- AllWords(entries, lower) :: w != [] && forall u <- w :: !PythonWhite(u)
  {
    if entries == [] {
    } else {
      AllWordsAreWords(entries[..|entries| - 1], lower);
    }
  }

  /** What is written for an entry reads back, split, as its keywords. */
  lemma SearchTextSplits(name: Text, tags: seq<Text>, lower: Text -> Text)
    ensures Words(BySpaces(Keywords(name, tags, lower)), PythonWhite) == Keywords(name, tags, lower)
  {
    AllWordsAreWords([name] + tags, lower);
    OnceWords(AllWords([name] + tags, lower));
    BySpacesSplits(Keywords(name, tags, lower));
  }

  /** The query has a word, and each starts some keyword. */
  ghost predicate IsWanted(query: Text, lower: Text -> Text, name: Text, tags: seq<Text>, folded: Text -> Text) {
    && (exists w :: IsWordOf(w, lower(query), IsWhite))
    && forall w :: IsWordOf(w, lower(query), IsWhite) ==>
         exists k :: IsKeyword(k, name, tags, folded) && w <= k
  }

  /** Those of the list that are flagged, in its order. */
  function Flagged(list: seq<Entry>, flags: seq<bool>): seq<Entry>
    requires |list| == |flags|
  {
    if list == [] then [] else (if flags[0] then [list[0]] else []) + Flagged(list[1..], flags[1..])
  }

  lemma {:induction false} FlaggedLast(list: seq<Entry>, flags: seq<bool>, e: Entry, b: bool)
    requires |list| == |flags|
    ensures Flagged(list + [e], flags + [b]) == Flagged(list, flags) + if b then [e] else []
  {
    var list', flags' := list + [e], flags + [b];
    if list == [] {
      assert list'[1..] == [] && flags'[1..] == [];
    } else {
      FlaggedLast(list[1..], flags[1..], e, b);
      assert list'[1..] == list[1..] + [e] && flags'[1..] == flags[1..] + [b];
    }
  }

  lemma WantedByWords(query: Text, lower: Text -> Text, name: Text, tags: seq<Text>, folded: Text -> Text)
    ensures var words, keywords := Words(lower(query), IsWhite), Keywords(name, tags, folded);
            IsWanted(query, lower, name, tags, folded)
            <==> words != [] && forall w <- words :: exists k <- keywords :: w <= k
  {
    var words, keywords := Words(lower(query), IsWhite), Keywords(name, tags, folded);
    forall w: Text
      ensures w in words <==> IsWordOf(w, lower(query), IsWhite)
    {
      WordsAreRuns(lower(query), IsWhite, w);
    }
    forall k: Text
      ensures k in keywords <==> IsKeyword(k, name, tags, folded)
    {
      KeywordsAre(name, tags, folded, k);
    }
    if words != [] {
      assert words[0] in words;
    }
  }

  lemma {:induction false} StartingAllFlagged(list: seq<Entry>, keywords: seq<seq<Text>>, words: seq<Text>,
                                              flags: seq<bool>)
    requires |list| == |keywords| == |flags|
    requires forall i :: 0 <= i < |list| ==> (flags[i] <==> forall w <- words :: exists k <- keywords[i] :: w <= k)
    ensures StartingAll(list, keywords, words) == Flagged(list, flags)
  {
    if list == [] {
    } else {
      var n := |list| - 1;
      StartingAllFlagged(list[..n], keywords[..n], words, flags[..n]);
      FlaggedLast(list[..n], flags[..n], list[n], flags[n]);
      assert list == list[..n] + [list[n]] && flags == flags[..n] + [flags[n]];
    }
  }

  lemma {:induction false} NoneFlagged(list: seq<Entry>, flags: seq<bool>)
    requires |list| == |flags| && forall i :: 0 <= i < |flags| ==> !flags[i]
    ensures Flagged(list, flags) == []
  {
    if list == [] {
    } else {
      NoneFlagged(list[1..], flags[1..]);
    }
  }

  /** Over a list as generated, what `Search` finds is, in the list's order, exactly the wanted
      entries: the query has a word, and each word of the query starts some word of the name or
      of a tag. */
  lemma SearchByPrefix(list: seq<Entry>, names: seq<Text>, tags: seq<seq<Text>>, query: Text,
                       folded: Text -> Text, lower: Text -> Text, flags: seq<bool>)
    requires |list| == |names| == |tags| == |flags|
    requires forall i :: 0 <= i < |list| ==> list[i].words == BySpaces(Keywords(names[i], tags[i], folded))
    requires forall i :: 0 <= i < |list| ==> (flags[i] <==> IsWanted(query, lower, names[i], tags[i], folded))
    ensures Found(list, query, lower) == Flagged(list, flags)
  {
    var words := Words(lower(query), IsWhite);
    forall i | 0 <= i < |list|
      ensures flags[i] <==> words != [] && forall w <- words :: exists k <- Keywords(names[i], tags[i], folded) :: w <= k
    {
      WantedByWords(query, lower, names[i], tags[i], folded);
    }
    if words == [] {
      NoneFlagged(list, flags);
    } else {
      QueryWordsUnspaced(query, lower);
      MatchingFlagged(list, names, tags, folded, words, flags);
    }
  }

  lemma MatchingFlagged(list: seq<Entry>, names: seq<Text>, tags: seq<seq<Text>>, folded: Text -> Text,
                        words: seq<Text>, flags: seq<bool>)
    requires |list| == |names| == |tags| == |flags|
    requires forall i :: 0 <= i < |list| ==> list[i].words == BySpaces(Keywords(names[i], tags[i], folded))
    requires forall w <- words :: w != [] && SPACE !in w
    requires forall i :: 0 <= i < |list| ==>
               (flags[i] <==> forall w <- words :: exists k <- Keywords(names[i], tags[i], folded) :: w <= k)
    ensures Matching(list, words) == Flagged(list, flags)
  {
    var keywords := seq(|list|, i requires 0 <= i < |list| => Keywords(names[i], tags[i], folded));
    forall ks | ks in keywords
      ensures forall k <- ks :: SPACE !in k
    {
      var i :| 0 <= i < |list| && keywords[i] == ks;
      KeywordsUnspaced(names[i], tags[i], folded);
    }
    SearchIsByKeyword(list, keywords, words);
    StartingAllFlagged(list, keywords, words, flags);
  }
}
