/** The reaction picker's rows: `rows` of EmojiPicker.js. */
module PickerRows {
  import opened SeqFacts
  import opened Utf16
  import opened EmojiTables
  import opened PickerList

  datatype Cell = Cell(emoji: Text, picture: string)

  /** A row's heading: the empty string of a row of cells, a group's title, or the undefined
      a group without a title gets. */
  datatype Heading = Blank | Title(text: string) | Undefined

  datatype RowValue = RowValue(heading: Heading, group: nat, cells: seq<Cell>)

  /** The row object the loop pushes cells into. */
  class Row {
    const heading: Heading
    const group: nat
    var cells: seq<Cell>

    constructor (heading: Heading, group: nat)
      ensures this.heading == heading && this.group == group && cells == []
    {
      this.heading, this.group, this.cells := heading, group, [];
    }

    function Value(): RowValue
      reads this
    {
      RowValue(heading, group, cells)
    }

    method Push(cell: Cell)
      modifies this
      ensures cells == old(cells) + [cell]
    {
      cells := cells + [cell];
    }
  }

  function Values(rows: seq<Row>): (v: seq<RowValue>)
    reads rows
    ensures |v| == |rows|
  {
    seq(|rows|, i requires 0 <= i < |rows| reads rows => rows[i].Value())
  }

  // ----- the reference -----

  function CellOf(entry: Entry): Cell {
    Cell(entry.emoji, entry.picture)
  }

  function CellsOf(list: seq<Entry>): (cells: seq<Cell>)
    ensures |cells| == |list|
  {
    seq(|list|, i requires 0 <= i < |list| => CellOf(list[i]))
  }

  /** Cells a row holds; a width below one holds one. */
  function Wide(columns: int): (n: nat)
    ensures n >= 1
  {
    if columns < 1 then 1 else columns
  }

  /** A list in pieces of `n`, the last with what is left. */
  function Pieces(list: seq<Entry>, n: nat): seq<seq<Entry>>
    requires n >= 1
    decreases |list|
  {
    if list == [] then [] else if |list| <= n then [list] else [list[..n]] + Pieces(list[n..], n)
  }

  function CellRow(piece: seq<Entry>): RowValue
    requires piece != []
  {
    RowValue(Blank, piece[0].group, CellsOf(piece))
  }

  /** A row per piece, of its first entry's group. */
  function CellRows(pieces: seq<seq<Entry>>): seq<RowValue>
    requires forall p <- pieces :: p != []
  {
    if pieces == [] then []
    else
      assert pieces[0] in pieces && forall p <- pieces[1..] :: p in pieces;
      [CellRow(pieces[0])] + CellRows(pieces[1..])
  }

  /** How many entries the list starts with in its first one's group. */
  function RunLength(list: seq<Entry>): (n: nat)
    ensures n <= |list| && (list != [] ==> n >= 1)
    ensures forall i :: 0 <= i < n ==> list[i].group == list[0].group
    ensures n < |list| ==> list[n].group != list[0].group
  {
    if list == [] then 0
    else if |list| > 1 && list[1].group == list[0].group then 1 + RunLength(list[1..])
    else 1
  }

  function HeadingOf(headings: seq<string>, group: nat): Heading {
    if group < |headings| then Title(headings[group]) else Undefined
  }

  function HeadingRow(headings: seq<string>, group: nat): RowValue {
    RowValue(HeadingOf(headings, group), group, [])
  }

  function Plain(list: seq<Entry>, n: nat): seq<RowValue>
    requires n >= 1
  {
    PiecesShape(list, n);
    CellRows(Pieces(list, n))
  }

  /** Each run of one group under its heading. */
  function Headed(list: seq<Entry>, n: nat, headings: seq<string>): seq<RowValue>
    requires n >= 1
    decreases |list|
  {
    if list == [] then []
    else
      var run := RunLength(list);
      [HeadingRow(headings, list[0].group)]
      + Plain(list[..run], n) + Headed(list[run..], n, headings)
  }

  function RowsOf(list: seq<Entry>, columns: int, headings: Option<seq<string>>): seq<RowValue> {
    match headings
    case None => Plain(list, Wide(columns))
    case Some(titles) => Headed(list, Wide(columns), titles)
  }

  /** Pieces are full but for the last, which is not empty: as few as hold the list. */
  lemma {:induction false} PiecesShape(list: seq<Entry>, n: nat)
    requires n >= 1
    ensures forall p <- Pieces(list, n) :: 1 <= |p| <= n
    ensures forall i :: 0 <= i < |Pieces(list, n)| - 1 ==> |Pieces(list, n)[i]| == n
    ensures list != [] ==> Pieces(list, n) != [] && (|Pieces(list, n)| - 1) * n < |list|
    ensures |list| <= |Pieces(list, n)| * n
    decreases |list|
  {
    if |list| <= n {
    } else {
      PiecesShape(list[n..], n);
      var m := |Pieces(list[n..], n)|;
      assert (m + 1) * n == m * n + n && (m - 1) * n == m * n - n;
    }
  }

  // ----- one entry more -----

  /** A cell more: in the last row, or in a new one when that is full. */
  function AddCell(rows: seq<RowValue>, entry: Entry, n: nat): seq<RowValue> {
    var last := |rows| - 1;
    if rows == [] || |rows[last].cells| >= n then rows + [CellRow([entry])]
    else rows[..last] + [rows[last].(cells := rows[last].cells + [CellOf(entry)])]
  }

  lemma AddCellAfter(first: seq<RowValue>, rows: seq<RowValue>, entry: Entry, n: nat)
    requires rows != []
    ensures AddCell(first + rows, entry, n) == first + AddCell(rows, entry, n)
  {
  }

  lemma PlainFirst(list: seq<Entry>, n: nat)
    requires n >= 1 && list != []
    ensures |list| <= n ==> Plain(list, n) == [CellRow(list)]
    ensures |list| > n ==> Plain(list, n) == [CellRow(list[..n])] + Plain(list[n..], n)
    ensures Plain(list, n) != []
  {
    PiecesShape(list, n);
    if |list| > n {
      PiecesShape(list[n..], n);
      assert Pieces(list, n)[1..] == Pieces(list[n..], n);
    } else {
      assert Pieces(list, n) == [list] && [list][1..] == [];
      assert CellRows([list]) == [CellRow(list)] + CellRows([list][1..]);
    }
  }

  lemma CellsAppend(list: seq<Entry>, entry: Entry)
    ensures CellsOf(list + [entry]) == CellsOf(list) + [CellOf(entry)]
  {
  }

  lemma {:induction false} PlainAppend(list: seq<Entry>, entry: Entry, n: nat)
    requires n >= 1
    ensures Plain(list + [entry], n) == AddCell(Plain(list, n), entry, n)
    decreases |list|
  {
    var all := list + [entry];
    PlainFirst(all, n);
    if list == [] {
      assert all == [entry];
    } else {
      PlainFirst(list, n);
      CellsAppend(list, entry);
      if |list| >= n {
        assert all[..n] == list[..n] && all[n..] == list[n..] + [entry];
        PlainAppend(list[n..], entry, n);
        if |list| > n {
          PlainFirst(list[n..], n);
          AddCellAfter([CellRow(list[..n])], Plain(list[n..], n), entry, n);
        } else {
          assert list[..n] == list && list[n..] == [];
        }
      }
    }
  }

  lemma {:induction false} RunLengthAppend(list: seq<Entry>, entry: Entry)
    requires list != []
    ensures RunLength(list + [entry])
            == if RunLength(list) == |list| && entry.group == list[0].group then |list| + 1 else RunLength(list)
  {
    var all := list + [entry];
    if |list| > 1 {
      assert all[1..] == list[1..] + [entry];
      RunLengthAppend(list[1..], entry);
    } else {
      assert all[1..] == [entry];
    }
  }

  /** An entry more under headings: a new group starts with its heading. */
  function AddEntry(rows: seq<RowValue>, starts: bool, entry: Entry, n: nat, titles: seq<string>): seq<RowValue> {
    if starts then rows + [HeadingRow(titles, entry.group)] + [CellRow([entry])] else AddCell(rows, entry, n)
  }

  lemma HeadedOne(entry: Entry, n: nat, titles: seq<string>)
    requires n >= 1
    ensures Headed([entry], n, titles) == [HeadingRow(titles, entry.group)] + [CellRow([entry])]
  {
    PlainFirst([entry], n);
    assert [entry][..1] == [entry] && [entry][1..] == [];
  }

  lemma HeadedRun(list: seq<Entry>, n: nat, titles: seq<string>)
    requires n >= 1 && list != [] && RunLength(list) == |list|
    ensures Headed(list, n, titles) == [HeadingRow(titles, list[0].group)] + Plain(list, n)
  {
    assert list[..|list|] == list && list[|list|..] == [];
    assert Headed(list, n, titles)
           == [HeadingRow(titles, list[0].group)] + Plain(list, n) + Headed([], n, titles);
  }

  /** The list is one run and the entry joins it. */
  lemma HeadedJoin(list: seq<Entry>, entry: Entry, n: nat, titles: seq<string>)
    requires n >= 1 && list != [] && RunLength(list) == |list| && entry.group == list[0].group
    ensures Headed(list + [entry], n, titles) == AddCell(Headed(list, n, titles), entry, n)
  {
    RunLengthAppend(list, entry);
    HeadedRun(list, n, titles);
    HeadedRun(list + [entry], n, titles);
    PlainAppend(list, entry, n);
    PlainFirst(list, n);
    AddCellAfter([HeadingRow(titles, list[0].group)], Plain(list, n), entry, n);
  }

  /** The list is one run and the entry starts the next. */
  lemma HeadedNext(list: seq<Entry>, entry: Entry, n: nat, titles: seq<string>)
    requires n >= 1 && list != [] && RunLength(list) == |list| && entry.group != list[0].group
    ensures Headed(list + [entry], n, titles)
            == Headed(list, n, titles) + [HeadingRow(titles, entry.group)] + [CellRow([entry])]
  {
    var all := list + [entry];
    RunLengthAppend(list, entry);
    HeadedRun(list, n, titles);
    HeadedOne(entry, n, titles);
    assert all[..|list|] == list && all[|list|..] == [entry];
    Assoc(Headed(list, n, titles), [HeadingRow(titles, entry.group)], [CellRow([entry])]);
  }

  lemma AddEntryAfter(first: seq<RowValue>, rows: seq<RowValue>, starts: bool, entry: Entry, n: nat, titles: seq<string>)
    requires rows != []
    ensures AddEntry(first + rows, starts, entry, n, titles) == first + AddEntry(rows, starts, entry, n, titles)
  {
    AddCellAfter(first, rows, entry, n);
    Assoc(first, rows, [HeadingRow(titles, entry.group)]);
    Assoc(first, rows + [HeadingRow(titles, entry.group)], [CellRow([entry])]);
  }

  lemma {:induction false} HeadedAppend(list: seq<Entry>, entry: Entry, n: nat, titles: seq<string>)
    requires n >= 1 && list != []
    ensures Headed(list, n, titles) != []
    ensures Headed(list + [entry], n, titles)
            == AddEntry(Headed(list, n, titles), list[|list| - 1].group != entry.group, entry, n, titles)
    decreases |list|
  {
    var all, run := list + [entry], RunLength(list);
    if run == |list| {
      HeadedRun(list, n, titles);
      if entry.group == list[0].group {
        HeadedJoin(list, entry, n, titles);
      } else {
        HeadedNext(list, entry, n, titles);
      }
    } else {
      RunLengthAppend(list, entry);
      assert all[..run] == list[..run] && all[run..] == list[run..] + [entry];
      HeadedAppend(list[run..], entry, n, titles);
      AddEntryAfter([HeadingRow(titles, list[0].group)] + Plain(list[..run], n), Headed(list[run..], n, titles),
                    list[|list| - 1].group != entry.group, entry, n, titles);
    }
  }

  /** The rows with an entry more, which starts a group or not. */
  function Grown(rows: seq<RowValue>, starts: bool, entry: Entry, columns: int, headings: Option<seq<string>>)
      : seq<RowValue>
  {
    match headings
    case None => AddCell(rows, entry, Wide(columns))
    case Some(titles) => AddEntry(rows, starts, entry, Wide(columns), titles)
  }

  lemma RowsAppend(list: seq<Entry>, i: nat, columns: int, headings: Option<seq<string>>)
    requires i < |list|
    ensures RowsOf(list[..i + 1], columns, headings)
            == Grown(RowsOf(list[..i], columns, headings), i == 0 || list[i - 1].group != list[i].group,
                     list[i], columns, headings)
    ensures i > 0 ==> RowsOf(list[..i], columns, headings) != []
  {
    assert list[..i + 1] == list[..i] + [list[i]];
    match headings {
      case None =>
        PlainAppend(list[..i], list[i], Wide(columns));
        if i > 0 {
          PlainFirst(list[..i], Wide(columns));
        }
      case Some(titles) =>
        if i == 0 {
          HeadedOne(list[0], Wide(columns), titles);
          assert list[..0] == [] && list[..1] == [list[0]];
        } else {
          HeadedAppend(list[..i], list[i], Wide(columns), titles);
        }
    }
  }

  // ----- the loop -----

  /** Row objects of their own, one per place. */
  predicate Distinct(rows: seq<Row>) {
    forall j, k :: 0 <= j < k < |rows| ==> rows[j] != rows[k]
  }

  /** A cell into the last row object: the others stay as they are. */
  method PushCell(rows: seq<Row>, entry: Entry)
    requires rows != [] && Distinct(rows)
    modifies rows[|rows| - 1]
    ensures Values(rows) == AddToLast(old(Values(rows)), entry)
    ensures rows[|rows| - 1].cells != []
  {
    rows[|rows| - 1].Push(CellOf(entry));
  }

  function AddToLast(rows: seq<RowValue>, entry: Entry): seq<RowValue>
    requires rows != []
  {
    var last := |rows| - 1;
    rows[..last] + [rows[last].(cells := rows[last].cells + [CellOf(entry)])]
  }

  /** A new row at the end, its first cell in it, or one in the last row: as `AddCell` has it. */
  lemma OpenedAndAdded(rows: seq<RowValue>, entry: Entry, n: nat)
    ensures AddToLast(rows + [RowValue(Blank, entry.group, [])], entry) == rows + [CellRow([entry])]
    ensures rows != [] && |rows[|rows| - 1].cells| < n ==> AddToLast(rows, entry) == AddCell(rows, entry, n)
    ensures rows == [] || |rows[|rows| - 1].cells| >= n ==>
              AddToLast(rows + [RowValue(Blank, entry.group, [])], entry) == AddCell(rows, entry, n)
  {
    var all := rows + [RowValue(Blank, entry.group, [])];
    assert all[..|rows|] == rows;
    assert CellsOf([entry]) == [] + [CellOf(entry)];
  }

  /** A new row object at the end. */
  method NewRow(rows: seq<Row>, heading: Heading, group: nat) returns (all: seq<Row>)
    requires Distinct(rows)
    ensures Distinct(all) && all != [] && forall r <- all :: r in rows || fresh(r)
    ensures Values(all) == Values(rows) + [RowValue(heading, group, [])]
  {
    var row := new Row(heading, group);
    all := rows + [row];
  }

  /** The row cells go into, if any, is the last, and has some. */
  predicate IsCurrent(rows: seq<Row>, current: Row?)
    reads rows
  {
    current != null ==> rows != [] && rows[|rows| - 1] == current && current.cells != []
  }

  /** The entry's cell, into the current row, or into a new one where there is none or it is
      full. */
  method AddCellTo(rows: seq<Row>, current: Row?, entry: Entry, columns: int) returns (all: seq<Row>, now: Row)
    requires Distinct(rows) && IsCurrent(rows, current)
    modifies set r | r in rows
    ensures Distinct(all) && forall r <- all :: r in rows || fresh(r)
    ensures IsCurrent(all, now)
    ensures Values(all) == if current != null then AddCell(old(Values(rows)), entry, Wide(columns))
                           else old(Values(rows)) + [CellRow([entry])]
  {
    OpenedAndAdded(Values(rows), entry, Wide(columns));
    all := rows;
    if current == null || |current.cells| >= columns {
      all := NewRow(rows, Blank, entry.group);
    }
    now := all[|all| - 1];
    assert now in all;
    PushCell(all, entry);
  }

  /** One turn of the loop: a heading row if the entry starts a group, then its cell. */
  method Grow(rows: seq<Row>, current: Row?, group: int, entry: Entry, columns: int, headings: Option<seq<string>>)
      returns (all: seq<Row>, now: Row, group': int)
    requires Distinct(rows) && IsCurrent(rows, current) && (current == null <==> rows == [])
    modifies set r | r in rows
    ensures Distinct(all) && forall r <- all :: r in rows || fresh(r)
    ensures IsCurrent(all, now)
    ensures group' == if headings.Some? then entry.group else group
    ensures Values(all) == Grown(old(Values(rows)), entry.group != group, entry, columns, headings)
  {
    var row := current;
    all, group' := rows, group;
    if headings.Some? && entry.group != group {
      group' := entry.group;
      all := NewRow(all, HeadingOf(headings.value, group'), group');
      row := null;
    }
    all, now := AddCellTo(all, row, entry, columns);
  }

  /** The whole grid, one entry of the list after the other. */
  method Rows(list: seq<Entry>, columns: int, headings: Option<seq<string>>) returns (out: seq<Row>)
    ensures Distinct(out) && forall r <- out :: fresh(r)
    ensures Values(out) == RowsOf(list, columns, headings)
  {
    out := [];
    var current: Row? := null;
    var group: int := -1;
    for i := 0 to |list|
      invariant Distinct(out) && forall r <- out :: fresh(r)
      invariant IsCurrent(out, current) && (current == null <==> out == [])
      invariant Values(out) == RowsOf(list[..i], columns, headings)
      invariant group == if headings.None? || i == 0 then -1 else list[i - 1].group
    {
      RowsAppend(list, i, columns, headings);
      out, current, group := Grow(out, current, group, list[i], columns, headings);
    }
    assert list[..|list|] == list;
  }

  // ----- nothing is lost -----

  function AllCells(rows: seq<RowValue>): seq<Cell> {
    if rows == [] then [] else rows[0].cells + AllCells(rows[1..])
  }

  lemma {:induction false} AllCellsConcat(a: seq<RowValue>, b: seq<RowValue>)
    ensures AllCells(a + b) == AllCells(a) + AllCells(b)
  {
    if a == [] {
      ConcatNone(b);
      ConcatNone(AllCells(b));
    } else {
      AllCellsConcat(a[1..], b);
      ConcatFirst(a, b);
      Assoc(a[0].cells, AllCells(a[1..]), AllCells(b));
    }
  }

  lemma CellsConcat(a: seq<Entry>, b: seq<Entry>)
    ensures CellsOf(a + b) == CellsOf(a) + CellsOf(b)
  {
  }

  lemma {:induction false} PlainKeepsCells(list: seq<Entry>, n: nat)
    requires n >= 1
    ensures AllCells(Plain(list, n)) == CellsOf(list)
    decreases |list|
  {
    if list == [] {
      PiecesShape(list, n);
    } else {
      PlainFirst(list, n);
      if |list| > n {
        PlainKeepsCells(list[n..], n);
        CellsConcat(list[..n], list[n..]);
        assert list[..n] + list[n..] == list;
        AllCellsConcat([CellRow(list[..n])], Plain(list[n..], n));
      }
    }
  }

  /** A heading row has no cells. */
  lemma HeadingAdds(heading: RowValue, run: seq<RowValue>, rest: seq<RowValue>)
    requires heading.cells == []
    ensures AllCells([heading] + run + rest) == AllCells(run) + AllCells(rest)
  {
    AllCellsConcat([heading] + run, rest);
    ConsRest(heading, run);
    ConcatNone(AllCells(run));
  }

  lemma {:induction false} HeadedKeepsCells(list: seq<Entry>, n: nat, titles: seq<string>)
    requires n >= 1
    ensures AllCells(Headed(list, n, titles)) == CellsOf(list)
    decreases |list|
  {
    if list == [] {
    } else {
      var run := RunLength(list);
      HeadedKeepsCells(list[run..], n, titles);
      PlainKeepsCells(list[..run], n);
      HeadingAdds(HeadingRow(titles, list[0].group), Plain(list[..run], n), Headed(list[run..], n, titles));
      CellsConcat(list[..run], list[run..]);
      assert list[..run] + list[run..] == list;
    }
  }

  /** The cells of the rows, one after the other, are the list's emoji and pictures. */
  lemma RowsKeepList(list: seq<Entry>, columns: int, headings: Option<seq<string>>)
    ensures var cells := AllCells(RowsOf(list, columns, headings));
            && |cells| == |list|
            && forall i :: 0 <= i < |list| ==> cells[i].emoji == list[i].emoji && cells[i].picture == list[i].picture
  {
    match headings {
      case None => PlainKeepsCells(list, Wide(columns));
      case Some(titles) => HeadedKeepsCells(list, Wide(columns), titles);
    }
  }

  // ----- one heading per run -----

  /** Groups of the heading rows, top to bottom. */
  function HeadingGroups(rows: seq<RowValue>): seq<nat> {
    if rows == [] then []
    else (if rows[0].heading == Blank then [] else [rows[0].group]) + HeadingGroups(rows[1..])
  }

  /** Groups of the entries, those that only repeat the one before left out. */
  function GroupChanges(list: seq<Entry>): seq<nat> {
    if list == [] then []
    else if |list| > 1 && list[1].group == list[0].group then GroupChanges(list[1..])
    else [list[0].group] + GroupChanges(list[1..])
  }

  lemma {:induction false} HeadingGroupsConcat(a: seq<RowValue>, b: seq<RowValue>)
    ensures HeadingGroups(a + b) == HeadingGroups(a) + HeadingGroups(b)
  {
    if a == [] {
      ConcatNone(b);
      ConcatNone(HeadingGroups(b));
    } else {
      HeadingGroupsConcat(a[1..], b);
      ConcatFirst(a, b);
      Assoc(if a[0].heading == Blank then [] else [a[0].group], HeadingGroups(a[1..]), HeadingGroups(b));
    }
  }

  lemma {:induction false} PlainHasNoHeading(list: seq<Entry>, n: nat)
    requires n >= 1
    ensures HeadingGroups(Plain(list, n)) == []
    decreases |list|
  {
    if list == [] {
      PiecesShape(list, n);
    } else {
      PlainFirst(list, n);
      if |list| > n {
        PlainHasNoHeading(list[n..], n);
        HeadingGroupsConcat([CellRow(list[..n])], Plain(list[n..], n));
      }
    }
  }

  lemma {:induction false} ChangesPastRun(list: seq<Entry>)
    requires list != []
    ensures GroupChanges(list) == [list[0].group] + GroupChanges(list[RunLength(list)..])
  {
    if |list| == 1 || list[1].group != list[0].group {
    } else {
      ChangesPastRun(list[1..]);
      assert list[1..][RunLength(list[1..])..] == list[RunLength(list)..];
    }
  }

  /** Under headings there is exactly one for each run of one group, in order. */
  lemma {:induction false} OneHeadingPerRun(list: seq<Entry>, columns: int, titles: seq<string>)
    ensures HeadingGroups(RowsOf(list, columns, Some(titles))) == GroupChanges(list)
    decreases |list|
  {
    if list == [] {
    } else {
      var n, run := Wide(columns), RunLength(list);
      var head := [HeadingRow(titles, list[0].group)];
      OneHeadingPerRun(list[run..], columns, titles);
      ChangesPastRun(list);
      PlainHasNoHeading(list[..run], n);
      HeadingGroupsConcat(head + Plain(list[..run], n), Headed(list[run..], n, titles));
      HeadingGroupsConcat(head, Plain(list[..run], n));
    }
  }

  // ----- row by row -----

  /** Rows are as wide as asked, or one cell, with headings or without. */
  lemma RowsAreWide(list: seq<Entry>, columns: int, titles: seq<string>)
    ensures RowsOf(list, columns, None) == Plain(list, if columns >= 1 then columns else 1)
    ensures RowsOf(list, columns, Some(titles)) == Headed(list, if columns >= 1 then columns else 1, titles)
  {
    assert Wide(columns) == if columns >= 1 then columns else 1;
  }

  /** Without headings, row `i` has the `i`th piece of the list: as many entries as fit, or what is
      left, and the group of its first. */
  lemma {:induction false} PlainAt(list: seq<Entry>, n: nat, i: nat)
    requires n >= 1 && i < |Plain(list, n)|
    ensures var row := Plain(list, n)[i];
            && i * n < |list| && row.heading == Blank && row.group == list[i * n].group
            && |row.cells| == (if |list| - i * n < n then |list| - i * n else n)
            && forall j :: 0 <= j < |row.cells| ==>
                 row.cells[j].emoji == list[i * n + j].emoji && row.cells[j].picture == list[i * n + j].picture
    decreases |list|
  {
    if list == [] {
      PiecesShape(list, n);
    } else {
      PlainFirst(list, n);
      if i == 0 {
      } else {
        PlainAt(list[n..], n, i - 1);
        assert i * n == (i - 1) * n + n;
        PlainRest(list, n, i);
      }
    }
  }

  lemma PlainRest(list: seq<Entry>, n: nat, i: nat)
    requires n >= 1 && 0 < i < |Plain(list, n)|
    ensures |list| > n && i - 1 < |Plain(list[n..], n)| && Plain(list, n)[i] == Plain(list[n..], n)[i - 1]
  {
    if list == [] {
      PiecesShape(list, n);
    } else {
      PlainFirst(list, n);
    }
  }

  /** A row has a heading or cells: a heading that is its group's title, if there is one, or from
      one cell to as many as fit. */
  predicate IsRow(row: RowValue, n: nat, titles: seq<string>) {
    if row.cells == [] then row.heading == if row.group < |titles| then Title(titles[row.group]) else Undefined
    else row.heading == Blank && |row.cells| <= n
  }

  lemma PlainRowsAre(list: seq<Entry>, n: nat, titles: seq<string>)
    requires n >= 1
    ensures forall row <- Plain(list, n) :: IsRow(row, n, titles)
  {
    forall row | row in Plain(list, n)
      ensures IsRow(row, n, titles)
    {
      var i :| 0 <= i < |Plain(list, n)| && Plain(list, n)[i] == row;
      PlainAt(list, n, i);
    }
  }

  /** Under headings every row is such a row. */
  lemma {:induction false} HeadedRowsAre(list: seq<Entry>, n: nat, titles: seq<string>)
    requires n >= 1
    ensures forall row <- Headed(list, n, titles) :: IsRow(row, n, titles)
    decreases |list|
  {
    if list == [] {
    } else {
      var run := RunLength(list);
      PlainRowsAre(list[..run], n, titles);
      HeadedRowsAre(list[run..], n, titles);
    }
  }

  /** The rows under headings are, run by run, the heading and the run's rows. */
  lemma HeadedRunFirst(list: seq<Entry>, n: nat, titles: seq<string>, run: nat)
    requires n >= 1 && 0 < run <= |list|
    requires forall i :: 0 <= i < run ==> list[i].group == list[0].group
    requires run < |list| ==> list[run].group != list[0].group
    ensures var group := list[0].group;
            Headed(list, n, titles)
            == [RowValue(if group < |titles| then Title(titles[group]) else Undefined, group, [])]
               + Plain(list[..run], n) + Headed(list[run..], n, titles)
  {
    assert RunLength(list) == run;
  }
}
