/** The lookup tables of EmojiPictures.js, as the scanner uses them. */
module EmojiTables {
  import opened Utf16

  datatype Option<+T> = None | Some(value: T)

  /** One `a-b` of a regular expression's character class; a lone unit is `a-a`. */
  datatype Range = Range(lo: Unit, hi: Unit)

  predicate InClass(ranges: seq<Range>, u: Unit) {
    exists k :: 0 <= k < |ranges| && ranges[k].lo <= u <= ranges[k].hi
  }

  datatype Tables = Tables(
    byKey: map<Text, string>,  // picture name per key
    bmpStarts: set<Unit>,      // first characters of emoji below U+10000
    textStyle: set<Text>,      // signs drawn as text unless U+FE0F follows
    mayHold: seq<Range>)       // units worth scanning a text for

  /** No first character of the table is half a pair. */
  predicate WholeStarts(t: Tables) {
    forall u <- t.bmpStarts :: !IsHigh(u) && !IsLow(u)
  }
}
