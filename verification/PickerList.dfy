/** The picker's list, as scripts/fetch-emoji.py writes it. */
module PickerList {
  import opened Utf16

  /** An emoji of the list: its picture, its group's place, and the words a search looks at. */
  datatype Entry = Entry(emoji: Text, picture: string, group: nat, words: Text)
}
