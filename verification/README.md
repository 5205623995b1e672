# Emoji in messages, and what sits beside them

A model of how this client finds emoji in a message and draws them as pictures, with proofs that it
keeps the message. Five parts of the repository are covered.

- **The scanner** (`qml/js/Emoji.js`) reads UTF-16 code units, as JavaScript does (section 2 of
  RFC 2781), one at a time: pairs, selectors, skin tones, keycaps, flags, tag characters, joins.
  `Lexer.dfy` has a reference lexer on code points, where an emoji is the longest run with the shape
  of one, and the proof that the scanner is that lexer. `Tags.dfy` says what becomes of the tags of
  a styled text.
- **The tables** (`scripts/fetch-emoji.py`) are a parameter everywhere. They are made from any list of
  rows by a model of `pictures_js`; what the generator promises is what makes the scanner's quick look
  sound and has every well-shaped row drawn. `ClassText.dfy` has the regular expression's class as
  text, and its reader.
- **StyledText** (`escaped`, `roomy`, `inText`, `drawn`, and `marked` of `qml/js/Marks.js`). `Reader.dfy`
  is an automaton that drops tags, decodes entities and keeps track of bold; printers are measured
  against it; it spells names and characters out itself. `Meaning.dfy` has the result for the whole way from message to label, `Folding.dfy` that no
  space is lost on it to folding, and `StyledMeaning.dfy` the result for styled text from the shim
  (`rust/piirit-shim/src/markdown.rs`), links and all.
- **Big emoji and recent emoji** (`onlyEmoji`, `bigLayout`, `remember`): a greedy layout, against every
  layout allowed, and a capped list, against its whole history.
- **Layer splitter and picker** (`ci/split-layers.py`, `qml/js/EmojiPicker.js`).

Loops of the source are methods with loops here; each is proved equal to a function of its inputs, and
what the source promises is proved about that function. Row objects the picker pushes cells into are
objects of a class. Where one loop body was too much for one proof, it is split over several methods
(`EmojiCuts` and `CutAt`; `Marked` to `MarkRest`; `BigLayout` to `FlowOver`; `Rows` to `PushCell`; `Split`
to `IsFull`).

What ranges, limits and sizes come to is also stated by the numbers, apart from the functions that use
them (`EmojiShape.dfy`, `TableShape.dfy`, and a section "by the numbers" or "row by row" where there is one).

Text is `seq<Unit>`, a unit a number below 0x10000; code points are Unicode scalar values. `lower`,
`folded` stand for any lower-casing function. Sequences of three in the source's flat list of cuts are
one `Cut`. An `<img>` tag is one `Image` chunk with the picture's name.

## Where code and comments differ

- `inText`'s comment (line 117) has the tags of styled text untouched. A tag that opens directly after
  U+200D is not: its `<` is taken as the joined code point, and what follows is scanned as text. A message
  of an emoji, U+200D and a Markdown link to an address with an emoji gets a picture in the address
  (`TagSafety.JoinedLinkIsTouched`). `TagSafety.TagTouchedExactly` says when a tag is touched, for all
  texts and tables; `TagSafety.TagsKnownExactly` says when the scan knows all tags.
- `marked`'s comment (line 7) has the whole query searched for. The code trims it first, and so does
  the model.
- `rows`' comment (lines 39-40) has a heading row with its title. A group past the end of `headings` gets
  `undefined`; the model has that as a value of its own.

## Model

| member | source | states |
|---|---|---|
| Utf16.CodeAtEncoded | qml/js/Emoji.js:44-53 | reading a code point where one was encoded gives it back, whatever follows |
| Utf16.EncodedCodeAt | qml/js/Emoji.js:44-53 | two units read as one code point are that code point's encoding |
| Utf16.CodeAtByNumber | qml/js/Emoji.js:44-53 | whatever the units, a half from 0xD800 before one from 0xDC00 is read with it, by the formula, and any other unit as it is |
| Utf16.EncodeInjective | scripts/fetch-emoji.py:192-195 | different strings have different units, so tables keyed by units are keyed by strings |
| EmojiScanner.EmojiEnd | qml/js/Emoji.js:61-90 | the loop ends an emoji where the specification does, for any units; `EndRefines` ties that to the longest match |
| EmojiScanner.EmojiCuts | qml/js/Emoji.js:176-213 | quick look, tag state and scan give the specified list of cuts, for any units |
| EmojiScanner.FirstOf | qml/js/Emoji.js:93-99 | the whole first emoji, else the whole first code point; never half a pair, for any units |
| EmojiScanner.CutsAreEmoji | qml/js/Emoji.js:176-213 | for any units the cuts are non-empty, in bounds, increasing and apart, each a longest emoji with its picture |
| EmojiScanner.CutsAndRunsAreText | qml/js/Emoji.js:124-153 | cuts and the runs between them, one after the other, are the text: no emoji is left out or there twice |
| EmojiScanner.CutsKeepPairs | qml/js/Emoji.js:176-213 | for any units, well-formed or not, no edge of a cut splits a surrogate pair |
| PointLexer.TailIsLongest | qml/js/Emoji.js:76-88 | selectors, tones, marks and joins are taken as far as any run of them goes, and no farther |
| PointLexer.LongestByTail | qml/js/Emoji.js:61-90 | two code points of look-ahead and one pass over the tail find the longest emoji |
| PointLexer.EndRefines | qml/js/Emoji.js:61-90 | on encoded code points, the end found is the offset where the longest emoji ends |
| PointLexer.NamesRefine | qml/js/Emoji.js:20-27 | key and untoned key on units are those on code points, and bare is bare in both |
| PointLexer.DrawableRefines | qml/js/Emoji.js:198-209 | the picture decided on units is the one decided on code points |
| PointLexer.ScannerIsLexer | qml/js/Emoji.js:176-213 | on the encoding of any code points the scan, stepping by units, is the code point lexer's, mapped to offsets |
| EmojiShape.EmojiEndsAfterParts | qml/js/Emoji.js:61-90 | by the numbers, anywhere in a text: an accepted start and any run of U+FE0F, U+20E3, U+1F3FB to U+1F3FF, U+E0020 to U+E007F and U+200D with another is the whole emoji if and only if no more of them follow |
| EmojiShape.PartsOf | qml/js/Emoji.js:76-88 | whatever follows a start is such a run and then no more of them |
| EmojiShape.FlagEnds | qml/js/Emoji.js:73-75 | U+1F1E6 to U+1F1FF ends after four units with another after it, and after two without |
| EmojiShape.NotAccepted | qml/js/Emoji.js:65-71 | no emoji starts if and only if the code point is outside U+1F000 to U+1FAFF and no start of the table, or one below U+00A9 without U+FE0F or U+20E3 after it |
| TableShape.KeysByNumber | qml/js/Emoji.js:20-27 | the two keys leave out U+FE0F, and U+1F3FB to U+1F3FF as well |
| TableShape.PictureByNumber | qml/js/Emoji.js:198-209 | anywhere in a text: no picture for a text sign without U+FE0F, or one below the surrogates before U+FE0E, else by the first key, else by the second |
| TableShape.PictureForByNumber | qml/js/Emoji.js:31-41 | the same two lookups, and "" for neither |
| EmojiGenerator.PicturesJs | scripts/fetch-emoji.py:213-266 | fails exactly when some row's emoji is nothing but selectors, else makes the four tables the rows describe |
| EmojiGenerator.AddRow | scripts/fetch-emoji.py:220-232 | one row's entries keep what each table holds; the last of rows with one key wins |
| EmojiGenerator.MayHoldClass | scripts/fetch-emoji.py:234-240 | the class holds the mark of every key and no other unit |
| TableShape.StartsByNumber | scripts/fetch-emoji.py:225-227 | a start is the first character of some row |
| TableShape.SignsByNumber | scripts/fetch-emoji.py:228-232 | a key is a text sign if and only if a row of group 7 has it, one character of the BMP with U+FE0F after it |
| TableShape.RowsByNumber | scripts/fetch-emoji.py:220-224 | the keys are the rows' emoji less U+FE0F, each with the picture of the last row that has it |
| TableShape.MarksByNumber | scripts/fetch-emoji.py:237-240 | the class has each key's first unit, if that is from 0xA9 on or alone, else its second, and no other |
| TableShape.AsciiNeverScanned | scripts/fetch-emoji.py:234-240 | no ASCII text is scanned if the emoji that start below U+00A9 have a mark above ASCII second, as keycaps do |
| EmojiGenerator.LookupKey | qml/js/Emoji.js:31-41 | an emoji is found by a key that has only units of the emoji |
| EmojiGenerator.QuickLookSound | qml/js/Emoji.js:178-181 | for any rows and any text, returning early changes no scan: where no unit is in the generated class, nothing would be cut |
| EmojiGenerator.GeneratedScannerIsLexer | qml/js/Emoji.js:176-213 | with generated tables the whole of `emojiCuts`, quick look included, is the code point lexer |
| EmojiGenerator.RowDrawnAlone | scripts/fetch-emoji.py:213-240 | with distinct keys, a row's emoji alone is one cut over all of it with the row's picture if and only if it is well shaped |
| TableShape.GroupDecides | scripts/fetch-emoji.py:228-232 | a character whose row spells it with U+FE0F is drawn with it always, and bare if and only if the row's group is not 7 |
| CharClass.CharClass | scripts/fetch-emoji.py:198-210 | the ranges denote exactly the units given, ascending with a unit left out between, and the text written reads back as them |
| CharClass.CanonicalIsShortest | scripts/fetch-emoji.py:198-210 | no list of ranges for the same units is shorter |
| ClassText.WrittenReads | scripts/fetch-emoji.py:207-210 | a regular expression reads the written class, escapes and hyphens, as exactly the ranges it was made of |
| Escaping.Escape | qml/js/Emoji.js:102-113 | the chain of seven replacements is one pass that looks one unit back |
| Folding.EscapedByUnit | qml/js/Emoji.js:102-113 | unit by unit: nothing for a carriage return, `<br>`, the three entities, a tab as a space, and a space as `&nbsp;` exactly after a space or break or at a line's start, else as it is |
| Reader.EscapedReadsBack | qml/js/Emoji.js:102-113 | reading an escaped text gives the text less carriage returns, tabs as spaces, and ends in text |
| Reader.EscapedOnlyBreaks | qml/js/Emoji.js:102-113 | the only tag in an escaped text is a line break |
| Folding.StaysIsFolded | qml/js/Emoji.js:101-113 | folding changes nothing if and only if every literal space comes after words |
| Folding.FoldingDrops | qml/js/Emoji.js:101-113 | folding leaves one of two spaces, and none at a line's start or after a break |
| Folding.EscapedFoldsToItself | qml/js/Emoji.js:102-113 | folding an escaped run changes nothing: no literal space follows another or a break, or starts a line |
| Folding.MarkedFoldsToItself | qml/js/Marks.js:13-37 | folding a whole marked text changes nothing, runs and marks together, as the term is trimmed |
| Folding.RoomyFacesNoSpace | qml/js/Emoji.js:155-165 | no run but one of white space ends in a literal space that a picture would swallow |
| Folding.PlainFoldsToItself | qml/js/Emoji.js:128-173 | for any tables and text, folding and the swallowing beside pictures take no space but in white space between pictures |
| Folding.DrawnFoldsToItself | qml/js/Emoji.js:128-173 | so for a searched text, runs, marks, room and pictures together |
| StyledText.InText | qml/js/Emoji.js:128-153 | the second pass prints run, picture, run, by the cuts |
| StyledText.RoomyShows | qml/js/Emoji.js:158-165 | exactly one space more at an end that faces a picture, unless the run is white space, or a line starts or ends there, or a space is there; and none more anywhere else |
| StyledText.RoomyWhere | qml/js/Emoji.js:158-165 | room is made at an end that faces a picture, but not in white space nor where a line starts or ends; elsewhere the run stays as it is |
| StyledText.TwoPassesAreOne | qml/js/Emoji.js:124-153 | cutting first and printing after gives what one pass that prints as it scans gives |
| StyledText.RenderedShows | qml/js/Emoji.js:137-152 | what is printed shows what the text says run by run, each emoji as its picture, with exactly that room |
| Meaning.CutsArePictures | qml/js/Emoji.js:31-41 | each cut carries the picture `pictureFor` has for its emoji |
| Meaning.PlainTextKept | qml/js/Emoji.js:128-173 | for any tables and any text: the label shows the text, each emoji as its picture, with exactly one space more at each end of a run that has room made |
| Meaning.PlainTextLeft | qml/js/Emoji.js:128-132 | a text without marks is left to be drawn plain if and only if it has no emoji to draw |
| Meaning.MarkedTextKept | qml/js/Emoji.js:169-173 | for a searched text: the label shows the whole text, bold and in the colour exactly where found, each emoji as its picture, with exactly that room; exactly the text when it has none |
| Meaning.CutStartsInText | qml/js/Emoji.js:187-197 | no emoji with a picture starts inside ASCII markup |
| Meaning.RowsToKeysWithout | scripts/fetch-emoji.py:220-224 | tables of emoji without markup characters have no key with one |
| Marks.Marked | qml/js/Marks.js:13-37 | the loop makes the specified markup; nothing without a term, a match, or where lower case has another length |
| Marks.MarkedExactly | qml/js/Marks.js:14-25 | there is markup if and only if the trimmed query in lower case stands in the text in lower case, that being as long as the text |
| JsText.TrimDrops | qml/js/Marks.js:14 | trimming drops white space at both ends, all of it, and nothing else |
| JsText.OccursIsSlice | qml/js/Marks.js:22-34 | an occurrence is a slice equal to the term |
| Marks.SpansAreLeftmost | qml/js/Marks.js:22-35 | an occurrence is marked if and only if it does not start inside the mark of one before it; every occurrence starts in a mark |
| Marks.MarkedShowsText | qml/js/Marks.js:13-37 | a marked text shows the whole text, bold and in the colour given in the marks and nowhere else |
| Meaning.PaintedIsText | qml/js/Marks.js:29-36 | runs and marks, one after the other, are the text |
| TagSafety.TagsKnownExactly | qml/js/Emoji.js:184-210 | at every position looked at the scan knows whether a tag is open, and tries no unit of one, if and only if no emoji it tries joins a `<` |
| TagSafety.ScanIsVisits | qml/js/Emoji.js:186-211 | the positions looked at are the scan's: what it returns is what is drawn on them |
| TagSafety.TagsUntouched | qml/js/Emoji.js:184-210 | where no `<` directly follows U+200D all tags are known and no cut has a unit of one |
| TagSafety.CutsHaveNoBrackets | qml/js/Emoji.js:184-210 | in any text no cut has a `<` or `>` if no key has |
| TagSafety.TagTouchedExactly | qml/js/Emoji.js:83-84 | for any tables and text some cut has a unit of a tag if and only if the text is scanned and an emoji tried there joins a `<` and is drawn with it, or stops inside the tag and the scan draws an emoji before the next bracket |
| TagSafety.JoinedLinkIsTouched | rust/piirit-shim/src/markdown.rs:254-260 | the shim's text for an emoji, U+200D and a link to an address with an emoji has a picture cut into the address |
| ShimMarkdown.PushedReadsBack | rust/piirit-shim/src/markdown.rs:143-153 | text the shim escapes reads back as it was, in well-formed entities |
| ShimMarkdown.LinkReads | rust/piirit-shim/src/markdown.rs:254-260 | a link, whatever its address, shows its text, leaves the reader in text and has well-formed entities |
| StyledMeaning.ReaderKnowsTags | qml/js/Emoji.js:184-192 | with well-formed entities the reader is in a tag exactly where one is open |
| StyledMeaning.StyledTextKept | qml/js/Emoji.js:115-153 | any styled text with well-formed entities that ends in text and has no tag touched shows with pictures what it showed, with exactly that room |
| StyledMeaning.StyledLinksKept | qml/js/Emoji.js:115-153 | so does one where no `<` directly follows U+200D, whatever is in its tags |
| BigEmoji.OnlyEmoji | qml/js/Emoji.js:220-237 | true exactly for the messages specified |
| BigEmoji.OnlyEmojiExactly | qml/js/Emoji.js:218-237 | those messages, trimmed, have 1 to 80 units, five pictures at most, and are white space but for them |
| BigEmoji.OnlyEmojiPictures | qml/js/Emoji.js:218-237 | such a message has 1 to 5 pictures, the first in the corner |
| BigEmoji.BigLayout | qml/js/Emoji.js:247-278 | the nested loops place every picture in its greedy spot, with width and height |
| BigEmoji.LayoutIsBest | qml/js/Emoji.js:247-276 | with the sliver and space within half a px of 0.08 and 0.25 of an edge, the layout keeps line feeds, spaces and width as written out in `AreAllowed`, and in no other that does so does any picture come sooner in reading order |
| BigEmoji.FlowIsCount | qml/js/Emoji.js:259-267 | a text between pictures moves on by its line feeds, and by its characters after the last of them, carriage returns not counted |
| BigEmoji.GapsAt | qml/js/Emoji.js:259 | those texts stand before the first cut and between each two |
| BigEmoji.LayoutInPx | qml/js/Emoji.js:252-272 | a picture has its cut's name and its spot's x, and its y is so many edges and slivers |
| BigEmoji.LayoutGeometry | qml/js/Emoji.js:258-277 | pictures are in reading order and apart, inside the size returned, which is the least, and within the width given if one picture is |
| RecentEmoji.Remember | qml/js/Emoji.js:296-305 | the emoji first, the others after it in their order, cut to forty |
| RecentEmoji.CappedOnce | qml/js/Emoji.js:296-305 | a choice on a list cut before is that choice on the whole, then cut |
| RecentEmoji.RecentIsHistory | qml/js/Emoji.js:296-305 | after any history the list is the first forty of the reversed history, each key once |
| RecentEmoji.RecentIsFirstForty | qml/js/Emoji.js:292-305 | after any history the list is, newest first, the emoji whose key is not met earlier, forty at most, in that order |
| RecentEmoji.OncePerKeyIsNewest | qml/js/Emoji.js:296-305 | an emoji is on the uncut list exactly when it was chosen and its key has not been chosen since in any spelling |
| Layers.Split | ci/split-layers.py:16-33 | however results are rounded: a contiguous partition in order, each layer opened by the rule; an error when `n` is 0 and when there are no members |
| Layers.FloatShares | ci/split-layers.py:19-22 | with floats what is due differs from exact shares by at most three parts in 2 to the 53rd of the whole |
| Layers.ExactDue | ci/split-layers.py:19-22 | without rounding it does not differ |
| Layers.SplitIsBalanced | ci/split-layers.py:19-33 | at most n layers, none empty, each at most total/n and the largest member, the nth at most total/n, give or take that slack |
| Layers.SplitIsExact | ci/split-layers.py:19-33 | exactly n layers when there are bytes and no member, with the slack, is above total/n |
| Layers.LayersUnique | ci/split-layers.py:21-31 | members and rule decide the layers, whatever is due: no other partition follows it |
| Layers.LayerOpensWhenDue | ci/split-layers.py:21-31 | member by member: a layer opens with what is due written before it, and is still open at a later member of its own because what is due next is not, or no layer may follow |
| Layers.DueSpelled | ci/split-layers.py:19-22 | what is due is the rounded share times the count, rounded |
| Layers.TotalByNumber | ci/split-layers.py:29-30 | a regular file adds its size, anything else nothing |
| Layers.LargestByNumber | ci/split-layers.py:29-30 | the largest member is the largest size of a regular file |
| PickerSearch.SearchText | scripts/fetch-emoji.py:139-147 | the words of label and tags in lower case, each once where it first comes, joined by spaces |
| PickerSearch.KeywordsUnspaced | scripts/fetch-emoji.py:139-147 | keywords are not empty, have no space and come once each |
| PickerSearch.WordsConcat | scripts/fetch-emoji.py:144 | words before white space and words after it, in order, are the words of the whole |
| PickerSearch.WordsAreRuns | qml/js/EmojiPicker.js:17-19 | the words are exactly the runs without white space that cannot be longer |
| PickerSearch.KeywordsAre | scripts/fetch-emoji.py:143-146 | keywords are exactly the words that stand in the name or a tag, each where it first comes |
| PickerSearch.SearchTextSplits | scripts/fetch-emoji.py:147 | what is written splits into the keywords again |
| PickerSearch.Search | qml/js/EmojiPicker.js:16-35 | the loops with their flag keep, in order, the entries that have every word; none without a word |
| PickerSearch.HasIsPrefix | qml/js/EmojiPicker.js:25-29 | finding a space and the word in the text is a keyword starting with the word, both ways |
| PickerSearch.SearchByPrefix | qml/js/EmojiPicker.js:16-35 | over generated text a search finds, in order, exactly the entries wanted: some word stands in the query, and each that does starts a word that stands in the name or in a tag |
| PickerRows.Rows | qml/js/EmojiPicker.js:41-59 | the loop over row objects makes the specified rows, each a new object of its own |
| PickerRows.PiecesShape | qml/js/EmojiPicker.js:52-56 | rows are full but for the last of a run, which is not empty, so there are as few as hold it |
| PickerRows.RowsKeepList | qml/js/EmojiPicker.js:41-59 | the rows' cells, one after the other, have the list's emoji and pictures |
| PickerRows.OneHeadingPerRun | qml/js/EmojiPicker.js:47-51 | exactly one heading for each longest run of one group, in order |
| PickerRows.RowsAreWide | qml/js/EmojiPicker.js:52 | rows hold as many cells as asked, or one |
| PickerRows.PlainAt | qml/js/EmojiPicker.js:52-56 | row `i` has the `i`th piece of its run, as many entries as fit or what is left, and the group of its first |
| PickerRows.HeadedRunFirst | qml/js/EmojiPicker.js:47-51 | a longest run of one group comes under one row with that group's title and no cells, then its rows |
| PickerRows.HeadedRowsAre | qml/js/EmojiPicker.js:47-56 | every row is a heading with its group's title and no cells, or has cells and no heading |

## Left out

- BigLayout: the edge is a whole number of px, as its caller rounds it (`qml/components/MessageDelegate.qml:182`); the width is any real.
- MarkedTextKept: for tables whose emoji have none of `&`, `;`, `<`, `>`, which no emoji of Unicode has, and an ASCII colour without `>`, as Qt writes colours; with others part of an entity or a tag could be drawn as a picture.
- DrawnFoldsToItself: the same tables and colours; lower case keeps white space where it is.
- StyledTextKept: the same tables; entities are ASCII without `<`, as the shim writes them.
- SplitIsBalanced: a float's rounding keeps order and is off by one part in 2 to the 53rd at most, which is so for sizes no float overflows at.
- TagsUntouched: a condition that is enough, and can be read off the text; `TagTouchedExactly` has the exact one.
- CharClass: takes the set of units rather than the list they come in.
- InText: attributes of `<img>` (path, tint, saturation, size) are not modelled, only the picture's name.
- Marked: lower-casing is any function; what it does to a character is not modelled.
- Reader: what it shows is what StyledText's documented tags and entities mean here; Qt's own renderer is not part of this model.
- Names every JavaScript object answers to (`constructor` and such) in the tables' lookups: no such text starts as an emoji does.
- Fetching, hashing, JSON, the file trees and the other files `scripts/fetch-emoji.py` writes: I/O.
- Spelling of rows (`spelled`, `picture_for`, `build`): the rows are any list.
- Reading and writing tar files in `ci/split-layers.py`: only sizes and the regular-file flag are kept.
- `qml/js/EmojiPictures.js` and `qml/js/EmojiData.js`: generated data; any rows stand for them.
- The rest of the shim's Markdown (emphasis, headings, code, finding links): only what it escapes and how it writes a link.
- Group icons, settings and the other scripts under `qml/js`: tables and one-branch functions.
