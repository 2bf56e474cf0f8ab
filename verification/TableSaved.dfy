/** Saving a draft gives what was displayed, exactly when its edits survive being sent. */
module TableSaved {
  import opened Wrappers
  import opened Sequences
  import opened Text
  import SqlTokens
  import opened TableDraft
  import opened TableSave

  // ---------------------------------------------------------------- drafts made by editing

  predicate Fixed(view: View, j: nat, c: Cell)
    requires j < |view.columns|
  {
    CoerceCellValue(view.canon, c, view.columns[j].dataType) == c
  }

  /** Every cell of an edited row is the row's own or one that was coerced. */
  ghost predicate EditedCells(view: View, row: seq<Cell>, edited: Record)
    requires Fits(view.columns, row)
  {
    forall j :: 0 <= j < |view.columns| ==>
      && view.columns[j].name in edited
      && (edited[view.columns[j].name] == row[j] || Fixed(view, j, edited[view.columns[j].name]))
  }

  ghost predicate NewCells(view: View, row: Record) {
    forall j :: 0 <= j < |view.columns| ==> Fixed(view, j, Get(row, view.columns[j].name))
  }

  ghost predicate GoodEdits(view: View, edits: map<nat, Record>, deleted: seq<nat>)
    requires WellFormed(view)
  {
    forall i :: i in edits ==> i < |view.rows| && i !in deleted && EditedCells(view, view.rows[i], edits[i])
  }

  ghost predicate GoodDeletes(view: View, deleted: seq<nat>) {
    && (forall i :: 0 <= i < |deleted| ==> deleted[i] < |view.rows|)
    && forall i, j :: 0 <= i < j < |deleted| ==> deleted[i] != deleted[j]
  }

  ghost predicate GoodNew(view: View, newRows: seq<Record>) {
    forall i :: 0 <= i < |newRows| ==> NewCells(view, newRows[i])
  }

  ghost predicate Good(view: View, draft: Draft)
    requires WellFormed(view)
  {
    GoodEdits(view, draft.editedRows, draft.deletedRowIndexes) && GoodDeletes(view, draft.deletedRowIndexes)
    && GoodNew(view, draft.newRows)
  }

  lemma CompactedGood(view: View, draft: Draft)
    requires WellFormed(view) && Good(view, draft)
    ensures Good(view, OrEmpty(Compacted(view, draft)))
  {
  }

  lemma {:induction false} InSomes<T>(s: seq<Option<T>>, k: nat)
    requires k < |Somes(s)|
    ensures Some(Somes(s)[k]) in s
  {
    var first := if s[0].Some? then [s[0].value] else [];
    if k >= |first| {
      InSomes(s[1..], k - |first|);
    }
  }

  /** A displayed row is a row of the view that is not deleted, or the new row at its place. */
  lemma DisplayedRow(view: View, draft: Option<Draft>, k: nat)
    requires WellFormed(view) && k < |DisplayRows(view, draft)|
    ensures var item, base := DisplayRows(view, draft)[k], OrEmpty(draft);
            if item.isNew then 0 <= k - (|DisplayRows(view, draft)| - |base.newRows|) < |base.newRows|
            else 0 <= item.sourceIndex < |view.rows| && item.sourceIndex !in base.deletedRowIndexes
  {
    var base := OrEmpty(draft);
    var old_ := Somes(OldRows(view, base));
    if k < |old_| {
      InSomes(OldRows(view, base), k);
      var i :| 0 <= i < |view.rows| && OldRows(view, base)[i] == Some(old_[k]);
    }
  }

  lemma OwnCells(view: View, row: seq<Cell>)
    requires DistinctNames(view.columns) && Fits(view.columns, row)
    ensures EditedCells(view, row, RowToRecord(view.columns, row))
    ensures forall j :: 0 <= j < |view.columns| ==>
              view.columns[j].name in RowToRecord(view.columns, row) && RowToRecord(view.columns, row)[view.columns[j].name] == row[j]
  {
    FieldsAre(view.columns, AllCells(row), |view.columns|);
  }

  lemma SetEditedCell(view: View, row: seq<Cell>, edited: Record, column: nat, value: Cell)
    requires DistinctNames(view.columns) && Fits(view.columns, row) && EditedCells(view, row, edited)
    requires column < |view.columns| && Fixed(view, column, value)
    ensures EditedCells(view, row, edited[view.columns[column].name := value])
  {
    forall j | 0 <= j < |view.columns|
      ensures j != column ==> view.columns[j].name != view.columns[column].name
    {
    }
  }

  lemma SetNewCell(view: View, row: Record, column: nat, value: Cell)
    requires DistinctNames(view.columns) && NewCells(view, row)
    requires column < |view.columns| && Fixed(view, column, value)
    ensures NewCells(view, row[view.columns[column].name := value])
  {
    forall j | 0 <= j < |view.columns|
      ensures Fixed(view, j, Get(row[view.columns[column].name := value], view.columns[j].name))
    {
      assert j != column ==> view.columns[j].name != view.columns[column].name;
      assert Fixed(view, j, Get(row, view.columns[j].name));
    }
  }

  lemma OneMoreEdit(view: View, draft: Draft, source: nat, record: Record)
    requires WellFormed(view) && Good(view, draft)
    requires source < |view.rows| && source !in draft.deletedRowIndexes && EditedCells(view, view.rows[source], record)
    ensures Good(view, draft.(editedRows := draft.editedRows[source := record]))
  {
  }

  lemma OneEditLess(view: View, draft: Draft, source: nat)
    requires WellFormed(view) && Good(view, draft)
    ensures Good(view, draft.(editedRows := draft.editedRows - {source}))
  {
  }

  lemma NewCellGood(view: View, draft: Draft, at: int, column: nat, value: Cell)
    requires WellFormed(view) && DistinctNames(view.columns) && Good(view, draft)
    requires column < |view.columns| && Fixed(view, column, value)
    ensures Good(view, NewCell(view, draft, at, view.columns[column].name, value))
  {
    if 0 <= at < |draft.newRows| {
      SetNewCell(view, draft.newRows[at], column, value);
    }
  }

  lemma RevertedGood(view: View, draft: Option<Draft>, source: nat, column: nat, value: Cell)
    requires WellFormed(view) && DistinctNames(view.columns) && Good(view, OrEmpty(draft))
    requires source < |view.rows| && source !in OrEmpty(draft).deletedRowIndexes
    requires column < |view.columns| && Fixed(view, column, value)
    ensures Good(view, OrEmpty(RevertedCell(view, draft, source, view.columns[column].name, value)))
  {
    var base := OrEmpty(draft);
    if source in base.editedRows {
      var current := base.editedRows[source][view.columns[column].name := value];
      SetEditedCell(view, view.rows[source], base.editedRows[source], column, value);
      OneMoreEdit(view, base, source, current);
      OneEditLess(view, base, source);
      CompactedGood(view, base.(editedRows := base.editedRows - {source}));
      CompactedGood(view, base.(editedRows := base.editedRows[source := current]));
    }
  }

  lemma UpdateCellGood(view: View, draft: Option<Draft>, rowIndex: nat, column: nat, value: string)
    requires WellFormed(view) && DistinctNames(view.columns) && Good(view, OrEmpty(draft)) && column < |view.columns|
    ensures Good(view, OrEmpty(UpdateCell(view, draft, rowIndex, column, value)))
  {
    var rows, base := DisplayRows(view, draft), OrEmpty(draft);
    if rowIndex < |rows| {
      var raw := if value == "" then Null else Text(value);
      var coerced := CoerceCellValue(view.canon, raw, view.columns[column].dataType);
      CoerceTwice(view.canon, raw, view.columns[column].dataType);
      if rows[rowIndex].isNew {
        NewCellEdited(view, base, rowIndex - (|rows| - |base.newRows|), column, coerced);
      } else {
        OldCellEdited(view, draft, rowIndex, column, coerced);
      }
    }
  }

  lemma OldCellEdited(view: View, draft: Option<Draft>, rowIndex: nat, column: nat, value: Cell)
    requires WellFormed(view) && DistinctNames(view.columns) && Good(view, OrEmpty(draft))
    requires column < |view.columns| && Fixed(view, column, value)
    requires rowIndex < |DisplayRows(view, draft)| && !DisplayRows(view, draft)[rowIndex].isNew
    ensures var source, base := DisplayRows(view, draft)[rowIndex].sourceIndex, OrEmpty(draft);
            && 0 <= source < |view.rows|
            && Good(view, OrEmpty(RevertedCell(view, draft, source, view.columns[column].name, value)))
            && Good(view, OrEmpty(Compacted(view, base.(editedRows := base.editedRows[source as nat :=
                                    WithCell(view, base, source, view.columns[column].name, value)]))))
  {
    DisplayedRow(view, draft, rowIndex);
    var source := DisplayRows(view, draft)[rowIndex].sourceIndex;
    RevertedGood(view, draft, source, column, value);
    EditedGood(view, OrEmpty(draft), source, column, value);
  }

  lemma NewCellEdited(view: View, base: Draft, at: int, column: nat, value: Cell)
    requires WellFormed(view) && DistinctNames(view.columns) && Good(view, base)
    requires column < |view.columns| && Fixed(view, column, value)
    ensures Good(view, OrEmpty(Compacted(view, NewCell(view, base, at, view.columns[column].name, value))))
  {
    NewCellGood(view, base, at, column, value);
    CompactedGood(view, NewCell(view, base, at, view.columns[column].name, value));
  }

  lemma EditedGood(view: View, base: Draft, source: nat, column: nat, value: Cell)
    requires WellFormed(view) && DistinctNames(view.columns) && Good(view, base)
    requires source < |view.rows| && source !in base.deletedRowIndexes
    requires column < |view.columns| && Fixed(view, column, value)
    ensures var record := WithCell(view, base, source, view.columns[column].name, value);
            Good(view, OrEmpty(Compacted(view, base.(editedRows := base.editedRows[source := record]))))
  {
    var record := WithCell(view, base, source, view.columns[column].name, value);
    OwnCells(view, view.rows[source]);
    SetEditedCell(view, view.rows[source], RowToRecord(view.columns, view.rows[source]), column, value);
    if source in base.editedRows {
      SetEditedCell(view, view.rows[source], base.editedRows[source], column, value);
    }
    OneMoreEdit(view, base, source, record);
    CompactedGood(view, base.(editedRows := base.editedRows[source := record]));
  }

  lemma AddRowGood(view: View, draft: Option<Draft>)
    requires WellFormed(view) && DistinctNames(view.columns) && Good(view, OrEmpty(draft))
    ensures Good(view, OrEmpty(AddRow(view, draft)))
  {
    var nulls := seq(|view.columns|, i => Null);
    FieldsAre(view.columns, AllCells(nulls), |view.columns|);
    assert NewCells(view, RowToRecord(view.columns, nulls));
  }

  lemma DeleteRowGood(view: View, draft: Option<Draft>, selected: nat)
    requires WellFormed(view) && Good(view, OrEmpty(draft))
    ensures Good(view, OrEmpty(DeleteRow(view, draft, selected)))
  {
    if selected < |DisplayRows(view, draft)| {
      DisplayedRow(view, draft, selected);
    }
  }

  lemma {:induction false} ReachedIsGood(view: View, edits: seq<Edit>)
    requires WellFormed(view) && DistinctNames(view.columns)
    requires forall i :: 0 <= i < |edits| ==> Possible(view, edits[i])
    ensures Good(view, OrEmpty(After(view, edits)))
  {
    if edits != [] {
      var before := edits[..|edits| - 1];
      ReachedIsGood(view, before);
      match edits[|edits| - 1]
      case SetCell(row, column, value) => UpdateCellGood(view, After(view, before), row, column, value);
      case NewRow => AddRowGood(view, After(view, before));
      case Remove(row) => DeleteRowGood(view, After(view, before), row);
    }
  }

  // ---------------------------------------------------------------- a mutation hits its own row

  lemma {:induction false} NoMatch(slots: seq<Option<Record>>, key: Record, values: Record)
    requires forall a :: 0 <= a < |slots| && slots[a].Some? ==> !Matches(slots[a].value, key)
    ensures Count(Somes(slots), key) == 0
    ensures Without(Somes(slots), key) == Somes(slots)
    ensures Updated(Somes(slots), key, values) == Somes(slots)
  {
    if slots != [] {
      NoMatch(slots[1..], key, values);
      if slots[0].Some? {
        var rest := Somes(slots[1..]);
        assert Somes(slots) == [slots[0].value] + rest;
        assert ([slots[0].value] + rest)[1..] == rest;
      } else {
        assert Somes(slots) == Somes(slots[1..]);
      }
    }
  }

  /** When only slot `i` matches the key, the mutation affects that slot and no other. */
  lemma {:induction false} OneMatch(slots: seq<Option<Record>>, key: Record, values: Record, i: nat)
    requires i < |slots| && slots[i].Some?
    requires forall a :: 0 <= a < |slots| && slots[a].Some? ==> (Matches(slots[a].value, key) <==> a == i)
    ensures Count(Somes(slots), key) == 1
    ensures Without(Somes(slots), key) == Somes(slots[i := None])
    ensures Updated(Somes(slots), key, values) == Somes(slots[i := Some(slots[i].value + values)])
  {
    var rest := Somes(slots[1..]);
    if slots[0].Some? {
      assert Somes(slots) == [slots[0].value] + rest;
      assert ([slots[0].value] + rest)[1..] == rest;
    } else {
      assert Somes(slots) == rest;
    }
    var gone, changed := slots[i := None], slots[i := Some(slots[i].value + values)];
    if i == 0 {
      NoMatch(slots[1..], key, values);
      assert gone[1..] == slots[1..] && changed[1..] == slots[1..];
    } else {
      assert forall a :: 0 <= a < |slots[1..]| ==> slots[1..][a] == slots[a + 1];
      OneMatch(slots[1..], key, values, i - 1);
      assert gone[1..] == slots[1..][i - 1 := None];
      assert changed[1..] == slots[1..][i - 1 := Some(slots[i].value + values)];
    }
  }

  // ---------------------------------------------------------------- the table row by row

  function KeyOf(view: View, i: nat): Record
    requires WellFormed(view) && i < |view.rows|
  {
    BuildRowKey(view.columns, view.rows[i], view.uniqueKey)
  }

  /** The key is made of columns, has no null and tells the rows apart. */
  ghost predicate Keyed(view: View)
    requires WellFormed(view)
  {
    && Editable(view)
    && (forall i, name :: 0 <= i < |view.rows| && name in view.uniqueKey ==> KeyOf(view, i)[name] != Null)
    && forall i, j :: 0 <= i < j < |view.rows| ==> KeyOf(view, i) != KeyOf(view, j)
  }

  /** Row `i` as the table has it after the deletions `gone` and the updates of the first `n` rows. */
  function Slot(view: View, edits: map<nat, Record>, gone: set<nat>, n: nat, i: nat): Option<Record>
    requires WellFormed(view) && i < |view.rows|
  {
    if i in gone then None
    else if i < n && i in edits then
      Some(RowToRecord(view.columns, view.rows[i]) + Changed(view, view.rows[i], edits[i], view.uniqueKey))
    else Some(RowToRecord(view.columns, view.rows[i]))
  }

  function Slots(view: View, edits: map<nat, Record>, gone: set<nat>, n: nat): (r: seq<Option<Record>>)
    requires WellFormed(view)
    ensures |r| == |view.rows|
  {
    seq(|view.rows|, i requires 0 <= i < |view.rows| => Slot(view, edits, gone, n, i))
  }

  lemma KeyColumn(view: View, name: string) returns (j: nat)
    requires Editable(view) && name in view.uniqueKey
    ensures j < |view.columns| && view.columns[j].name == name
  {
    var k :| 0 <= k < |view.uniqueKey| && view.uniqueKey[k] == name;
    j := FindIndex(view.columns, name);
  }

  /** The values of an update are columns outside the key, and what they are. */
  lemma ChangedAre(view: View, row: seq<Cell>, edited: Record)
    requires DistinctNames(view.columns) && Fits(view.columns, row)
    ensures var values := Changed(view, row, edited, view.uniqueKey);
            && (forall j :: 0 <= j < |view.columns| ==>
                  var sent := SentCell(view, row, edited, view.uniqueKey, j);
                  (view.columns[j].name in values <==> sent.Some?)
                  && (sent.Some? ==> values[view.columns[j].name] == sent.value))
            && forall name :: name in values ==> name !in view.uniqueKey
  {
    FieldsAre(view.columns, SentCells(view, row, edited, view.uniqueKey), |view.columns|);
  }

  lemma SlotMatches(view: View, edits: map<nat, Record>, gone: set<nat>, n: nat, a: nat, i: nat)
    requires WellFormed(view) && DistinctNames(view.columns) && Keyed(view)
    requires a < |view.rows| && i < |view.rows| && Slot(view, edits, gone, n, a).Some?
    ensures Matches(Slot(view, edits, gone, n, a).value, KeyOf(view, i)) <==> a == i
  {
    var record := Slot(view, edits, gone, n, a).value;
    if a in edits {
      ChangedAre(view, view.rows[a], edits[a]);
    }
    OwnCells(view, view.rows[a]);
    forall name | name in view.uniqueKey
      ensures name in record && record[name] == KeyOf(view, a)[name]
    {
      var j := KeyColumn(view, name);
    }
    if Matches(record, KeyOf(view, i)) {
      assert KeyOf(view, a) == KeyOf(view, i);
    }
  }

  lemma OnlySlot(view: View, edits: map<nat, Record>, gone: set<nat>, n: nat, i: nat, values: Record)
    requires WellFormed(view) && DistinctNames(view.columns) && Keyed(view) && i < |view.rows| && i !in gone
    ensures var slots := Slots(view, edits, gone, n);
            && Count(Somes(slots), KeyOf(view, i)) == 1
            && Without(Somes(slots), KeyOf(view, i)) == Somes(slots[i := None])
            && Updated(Somes(slots), KeyOf(view, i), values) == Somes(slots[i := Some(slots[i].value + values)])
  {
    var slots := Slots(view, edits, gone, n);
    forall a | 0 <= a < |slots| && slots[a].Some?
      ensures Matches(slots[a].value, KeyOf(view, i)) <==> a == i
    {
      SlotMatches(view, edits, gone, n, a, i);
    }
    OneMatch(slots, KeyOf(view, i), values, i);
  }

  lemma DeleteRuns(view: View, edits: map<nat, Record>, gone: set<nat>, i: nat)
    requires WellFormed(view) && DistinctNames(view.columns) && Keyed(view) && i < |view.rows| && i !in gone
    ensures Run(Somes(Slots(view, edits, gone, 0)), [Mutation.Delete(KeyOf(view, i))])
         == (Somes(Slots(view, edits, gone + {i}, 0)), true)
  {
    var slots := Slots(view, edits, gone, 0);
    OnlySlot(view, edits, gone, 0, i, map[]);
    RunOne(Somes(slots), Mutation.Delete(KeyOf(view, i)));
    assert slots[i := None] == Slots(view, edits, gone + {i}, 0);
  }

  lemma UpdateRuns(view: View, edits: map<nat, Record>, gone: set<nat>, i: nat)
    requires WellFormed(view) && DistinctNames(view.columns) && Keyed(view) && i < |view.rows|
    requires i in edits ==> i !in gone
    ensures Run(Somes(Slots(view, edits, gone, i)), RowUpdate(view, edits, i))
         == (Somes(Slots(view, edits, gone, i + 1)), true)
  {
    var slots := Slots(view, edits, gone, i);
    SlotsStep(view, edits, gone, i);
    if RowUpdate(view, edits, i) != [] {
      var values := Changed(view, view.rows[i], edits[i], view.uniqueKey);
      OnlySlot(view, edits, gone, i, i, values);
      RunOne(Somes(slots), Update(KeyOf(view, i), values));
    }
  }

  lemma SlotsStep(view: View, edits: map<nat, Record>, gone: set<nat>, i: nat)
    requires WellFormed(view) && i < |view.rows| && (i in edits ==> i !in gone)
    ensures var slots, next := Slots(view, edits, gone, i), Slots(view, edits, gone, i + 1);
            if RowUpdate(view, edits, i) == [] then slots == next
            else slots[i].Some? && next == slots[i := Some(slots[i].value + Changed(view, view.rows[i], edits[i], view.uniqueKey))]
  {
    var record := RowToRecord(view.columns, view.rows[i]);
    assert record + map[] == record;
  }

  lemma RunThen(table: seq<Record>, a: seq<Mutation>, u: seq<Record>, b: seq<Mutation>, v: seq<Record>)
    requires Run(table, a) == (u, true) && Run(u, b) == (v, true)
    ensures Run(table, a + b) == (v, true)
  {
    RunAppend(table, a, b);
  }

  function FirstOf(deleted: seq<nat>, n: nat): set<nat>
    requires n <= |deleted|
  {
    set i | 0 <= i < n :: deleted[i]
  }

  lemma FirstOneMore(deleted: seq<nat>, n: nat)
    requires 0 < n <= |deleted|
    ensures FirstOf(deleted, n) == FirstOf(deleted, n - 1) + {deleted[n - 1]}
  {
  }

  lemma {:induction false} DeletesRun(view: View, edits: map<nat, Record>, deleted: seq<nat>, n: nat)
    requires WellFormed(view) && DistinctNames(view.columns) && Keyed(view) && GoodDeletes(view, deleted) && n <= |deleted|
    ensures Run(Somes(Slots(view, edits, {}, 0)), Deletes(view, deleted, n))
         == (Somes(Slots(view, edits, FirstOf(deleted, n), 0)), true)
  {
    if n == 0 {
      assert FirstOf(deleted, n) == {};
    } else {
      DeletesRun(view, edits, deleted, n - 1);
      DeleteRuns(view, edits, FirstOf(deleted, n - 1), deleted[n - 1]);
      FirstOneMore(deleted, n);
      RunThen(Somes(Slots(view, edits, {}, 0)), Deletes(view, deleted, n - 1),
              Somes(Slots(view, edits, FirstOf(deleted, n - 1), 0)), [Mutation.Delete(KeyOf(view, deleted[n - 1]))],
              Somes(Slots(view, edits, FirstOf(deleted, n), 0)));
    }
  }

  lemma {:induction false} UpdatesRun(view: View, edits: map<nat, Record>, gone: set<nat>, n: nat)
    requires WellFormed(view) && DistinctNames(view.columns) && Keyed(view) && n <= |view.rows|
    requires forall i :: i in edits ==> i !in gone
    ensures Run(Somes(Slots(view, edits, gone, 0)), Updates(view, edits, n))
         == (Somes(Slots(view, edits, gone, n)), true)
  {
    if n > 0 {
      UpdatesRun(view, edits, gone, n - 1);
      UpdateRuns(view, edits, gone, n - 1);
      var before, last := Updates(view, edits, n - 1), RowUpdate(view, edits, n - 1);
      assert Updates(view, edits, n) == before + last;
      RunThen(Somes(Slots(view, edits, gone, 0)), before, Somes(Slots(view, edits, gone, n - 1)),
              last, Somes(Slots(view, edits, gone, n)));
    }
  }

  function Inserted(view: View, newRows: seq<Record>): (r: seq<Record>)
    ensures |r| == |newRows|
  {
    seq(|newRows|, i requires 0 <= i < |newRows| => BuildInsertValues(view, newRows[i]))
  }

  lemma {:induction false} InsertsRun(view: View, table: seq<Record>, newRows: seq<Record>, n: nat)
    requires n <= |newRows|
    ensures Run(table, Inserts(view, newRows, n)) == (table + Inserted(view, newRows)[..n], true)
  {
    if n == 0 {
      assert table + Inserted(view, newRows)[..n] == table;
    } else {
      var m := Insert(BuildInsertValues(view, newRows[n - 1]));
      InsertsRun(view, table, newRows, n - 1);
      RunAppend(table, Inserts(view, newRows, n - 1), [m]);
      RunOne(table + Inserted(view, newRows)[..n - 1], m);
      assert table + Inserted(view, newRows)[..n] == table + Inserted(view, newRows)[..n - 1] + [BuildInsertValues(view, newRows[n - 1])];
    }
  }

  /** The table the view was read from. */
  function Read(view: View): seq<Record>
    requires WellFormed(view)
  {
    Somes(Slots(view, map[], {}, 0))
  }

  /** The table after all mutations of a good draft. None of them is refused. */
  lemma MutationsRun(view: View, draft: Draft)
    requires WellFormed(view) && DistinctNames(view.columns) && Keyed(view) && Good(view, draft)
    ensures var gone := FirstOf(draft.deletedRowIndexes, |draft.deletedRowIndexes|);
            Run(Read(view), Mutations(view, draft))
            == (Somes(Slots(view, draft.editedRows, gone, |view.rows|)) + Inserted(view, draft.newRows), true)
  {
    var deleted, edits := draft.deletedRowIndexes, draft.editedRows;
    var gone := FirstOf(deleted, |deleted|);
    var a, b, c := Deletes(view, deleted, |deleted|), Updates(view, edits, |view.rows|), Inserts(view, draft.newRows, |draft.newRows|);
    assert Slots(view, map[], {}, 0) == Slots(view, edits, {}, 0);
    RunAppend(Read(view), a + b, c);
    RunAppend(Read(view), a, b);
    DeletesRun(view, edits, deleted, |deleted|);
    UpdatesRun(view, edits, gone, |view.rows|);
    InsertsRun(view, Somes(Slots(view, edits, gone, |view.rows|)), draft.newRows, |draft.newRows|);
    assert Inserted(view, draft.newRows)[..|draft.newRows|] == Inserted(view, draft.newRows);
  }

  // ---------------------------------------------------------------- the table against the display

  /** A record of the table and a displayed row agree cell by cell, up to `valuesEqual`. */
  ghost predicate Agrees(view: View, record: Record, shown: DisplayRow) {
    |shown.values| == |view.columns|
    && forall j :: 0 <= j < |view.columns| ==>
         view.columns[j].name in record && ValuesEqual(record[view.columns[j].name], shown.values[j])
  }

  ghost predicate AllAgree(view: View, table: seq<Record>, shown: seq<DisplayRow>) {
    |table| == |shown| && forall i :: 0 <= i < |table| ==> Agrees(view, table[i], shown[i])
  }

  /** Two rows of slots empty at the same places agree exactly when every slot does. */
  lemma {:induction false} SlotsAgree(view: View, a: seq<Option<Record>>, b: seq<Option<DisplayRow>>)
    requires |a| == |b| && forall i :: 0 <= i < |a| ==> (a[i].Some? <==> b[i].Some?)
    ensures |Somes(a)| == |Somes(b)|
    ensures AllAgree(view, Somes(a), Somes(b))
       <==> forall i :: 0 <= i < |a| && a[i].Some? ==> Agrees(view, a[i].value, b[i].value)
  {
    if a != [] {
      SlotsAgree(view, a[1..], b[1..]);
      assert forall i :: 0 <= i < |a[1..]| ==> a[1..][i] == a[i + 1] && b[1..][i] == b[i + 1];
      if a[0].Some? {
        ConsAgree(view, a[0].value, Somes(a[1..]), b[0].value, Somes(b[1..]));
        assert Somes(a) == [a[0].value] + Somes(a[1..]) && Somes(b) == [b[0].value] + Somes(b[1..]);
      } else {
        assert Somes(a) == Somes(a[1..]) && Somes(b) == Somes(b[1..]);
      }
      ForallSplit(view, a, b);
    }
  }

  lemma ConsAgree(view: View, record: Record, table: seq<Record>, row: DisplayRow, shown: seq<DisplayRow>)
    ensures AllAgree(view, [record] + table, [row] + shown) <==> Agrees(view, record, row) && AllAgree(view, table, shown)
  {
    AppendAgree(view, [record], [row], table, shown);
    assert [record][0] == record && [row][0] == row;
  }

  lemma AppendAgree(view: View, a: seq<Record>, b: seq<DisplayRow>, c: seq<Record>, d: seq<DisplayRow>)
    requires |a| == |b|
    ensures AllAgree(view, a + c, b + d) <==> AllAgree(view, a, b) && AllAgree(view, c, d)
  {
    if AllAgree(view, a + c, b + d) {
      forall i | 0 <= i < |a|
        ensures Agrees(view, a[i], b[i])
      {
        assert (a + c)[i] == a[i] && (b + d)[i] == b[i];
      }
      forall i | 0 <= i < |c|
        ensures Agrees(view, c[i], d[i])
      {
        assert (a + c)[|a| + i] == c[i] && (b + d)[|a| + i] == d[i];
      }
    }
  }

  lemma ForallSplit(view: View, a: seq<Option<Record>>, b: seq<Option<DisplayRow>>)
    requires |a| == |b| && a != [] && forall i :: 0 <= i < |a| ==> (a[i].Some? <==> b[i].Some?)
    ensures (forall i :: 0 <= i < |a| && a[i].Some? ==> Agrees(view, a[i].value, b[i].value))
       <==> (a[0].Some? ==> Agrees(view, a[0].value, b[0].value))
            && forall i :: 0 <= i < |a[1..]| && a[1..][i].Some? ==> Agrees(view, a[1..][i].value, b[1..][i].value)
  {
    if forall i :: 0 <= i < |a[1..]| && a[1..][i].Some? ==> Agrees(view, a[1..][i].value, b[1..][i].value) {
      forall i | 0 < i < |a| && a[i].Some?
        ensures Agrees(view, a[i].value, b[i].value)
      {
        assert a[1..][i - 1] == a[i] && b[1..][i - 1] == b[i];
      }
    }
  }

  /** The cell survives being sent: a key cell is not sent and must equal the row's, another
      must equal what it is coerced to. */
  predicate CellSurvives(view: View, row: seq<Cell>, edited: Record, j: nat)
    requires j < |view.columns| && Fits(view.columns, row)
  {
    var c, e := view.columns[j], Get(edited, view.columns[j].name);
    if c.name in view.uniqueKey then ValuesEqual(e, row[j])
    else ValuesEqual(CoerceCellValue(view.canon, e, c.dataType), e)
  }

  ghost predicate RowSurvives(view: View, row: seq<Cell>, edited: Record)
    requires Fits(view.columns, row)
  {
    forall j :: 0 <= j < |view.columns| ==> CellSurvives(view, row, edited, j)
  }

  /** Every edited row survives being sent. */
  ghost predicate Survives(view: View, draft: Draft)
    requires WellFormed(view) && InRange(view, draft)
  {
    forall i :: i in draft.editedRows ==> RowSurvives(view, view.rows[i], draft.editedRows[i])
  }

  lemma EditedRowAgrees(view: View, i: nat, edited: Record)
    requires WellFormed(view) && DistinctNames(view.columns) && i < |view.rows|
    requires EditedCells(view, view.rows[i], edited)
    ensures Agrees(view, RowToRecord(view.columns, view.rows[i]) + Changed(view, view.rows[i], edited, view.uniqueKey),
                   DisplayRow(i, false, EditedValues(view, view.rows[i], edited)))
       <==> RowSurvives(view, view.rows[i], edited)
  {
    var row := view.rows[i];
    var record := RowToRecord(view.columns, row) + Changed(view, row, edited, view.uniqueKey);
    var shown := DisplayRow(i, false, EditedValues(view, row, edited));
    OwnCells(view, row);
    ChangedAre(view, row, edited);
    forall j | 0 <= j < |view.columns|
      ensures view.columns[j].name in record
      ensures ValuesEqual(record[view.columns[j].name], shown.values[j]) <==> CellSurvives(view, row, edited, j)
    {
      var sent := SentCell(view, row, edited, view.uniqueKey, j);
      assert record[view.columns[j].name] == if sent.Some? then sent.value else row[j];
    }
  }

  lemma UneditedRowAgrees(view: View, i: nat)
    requires WellFormed(view) && DistinctNames(view.columns) && i < |view.rows|
    ensures Agrees(view, RowToRecord(view.columns, view.rows[i]), DisplayRow(i, false, view.rows[i]))
  {
    OwnCells(view, view.rows[i]);
  }

  lemma NewRowsAgree(view: View, draft: Draft)
    requires DistinctNames(view.columns) && GoodNew(view, draft.newRows)
    ensures AllAgree(view, Inserted(view, draft.newRows), NewRows(view, draft))
  {
    forall i | 0 <= i < |draft.newRows|
      ensures Agrees(view, Inserted(view, draft.newRows)[i], NewRows(view, draft)[i])
    {
      assert NewCells(view, draft.newRows[i]);
      FieldsAre(view.columns, InsertCells(view, draft.newRows[i]), |view.columns|);
    }
  }

  lemma OldRowsAgree(view: View, draft: Draft)
    requires WellFormed(view) && DistinctNames(view.columns) && Good(view, draft)
    ensures var gone := FirstOf(draft.deletedRowIndexes, |draft.deletedRowIndexes|);
            && |Slots(view, draft.editedRows, gone, |view.rows|)| == |OldRows(view, draft)|
            && |Somes(Slots(view, draft.editedRows, gone, |view.rows|))| == |Somes(OldRows(view, draft))|
            && (AllAgree(view, Somes(Slots(view, draft.editedRows, gone, |view.rows|)), Somes(OldRows(view, draft)))
                <==> Survives(view, draft))
  {
    var gone := FirstOf(draft.deletedRowIndexes, |draft.deletedRowIndexes|);
    var slots, shown := Slots(view, draft.editedRows, gone, |view.rows|), OldRows(view, draft);
    assert forall i :: i in gone <==> i in draft.deletedRowIndexes;
    forall i | 0 <= i < |view.rows| && slots[i].Some?
      ensures shown[i].Some?
      ensures Agrees(view, slots[i].value, shown[i].value)
         <==> (i in draft.editedRows ==> RowSurvives(view, view.rows[i], draft.editedRows[i]))
    {
      UneditedRowAgrees(view, i);
      if i in draft.editedRows {
        EditedRowAgrees(view, i, draft.editedRows[i]);
      }
    }
    SlotsAgree(view, slots, shown);
    assert forall i :: i in draft.editedRows ==> slots[i].Some?;
  }

  /** Sending a good draft's mutations gives what is displayed exactly when its edits survive. */
  lemma MutationsGiveDisplay(view: View, draft: Draft)
    requires WellFormed(view) && DistinctNames(view.columns) && Keyed(view) && Good(view, draft)
    ensures Run(Read(view), Mutations(view, draft)).1
    ensures AllAgree(view, Run(Read(view), Mutations(view, draft)).0, DisplayRows(view, Some(draft))) <==> Survives(view, draft)
  {
    var gone := FirstOf(draft.deletedRowIndexes, |draft.deletedRowIndexes|);
    MutationsRun(view, draft);
    OldRowsAgree(view, draft);
    NewRowsAgree(view, draft);
    AppendAgree(view, Somes(Slots(view, draft.editedRows, gone, |view.rows|)), Somes(OldRows(view, draft)),
                Inserted(view, draft.newRows), NewRows(view, draft));
  }

  // ---------------------------------------------------------------- when nothing is sent

  /** An edited record that would send nothing even if every column could be sent. */
  lemma NothingDiffers(view: View, row: seq<Cell>, edited: Record)
    requires DistinctNames(view.columns) && Fits(view.columns, row)
    ensures Changed(view, row, edited, []) == map[] <==> forall j :: 0 <= j < |view.columns| ==> SentCell(view, row, edited, [], j).None?
    ensures Changed(view, row, edited, []) == map[] ==> Changed(view, row, edited, view.uniqueKey) == map[]
  {
    FieldsAre(view.columns, SentCells(view, row, edited, []), |view.columns|);
    FieldsAre(view.columns, SentCells(view, row, edited, view.uniqueKey), |view.columns|);
    var all := Changed(view, row, edited, []);
    forall j | 0 <= j < |view.columns|
      ensures SentCells(view, row, edited, [])[j] == SentCell(view, row, edited, [], j)
      ensures SentCell(view, row, edited, [], j).None? ==> SentCell(view, row, edited, view.uniqueKey, j).None?
    {
    }
    if all == map[] {
      forall j | 0 <= j < |view.columns|
        ensures SentCell(view, row, edited, [], j).None?
      {
        assert view.columns[j].name !in all;
      }
    } else {
      var name :| name in all;
    }
  }

  lemma UnchangedSurvives(view: View, row: seq<Cell>, edited: Record)
    requires DistinctNames(view.columns) && Fits(view.columns, row) && EditedCells(view, row, edited)
    requires Changed(view, row, edited, []) == map[]
    ensures RowSurvives(view, row, edited)
  {
    NothingDiffers(view, row, edited);
    forall j | 0 <= j < |view.columns|
      ensures CellSurvives(view, row, edited, j)
    {
      assert SentCell(view, row, edited, [], j).None?;
    }
  }

  lemma CleanRow(view: View, edits: map<nat, Record>, i: nat)
    requires WellFormed(view) && DistinctNames(view.columns) && i < |view.rows|
    requires i in edits ==> !Sends(view, i, edits[i])
    ensures RowUpdate(view, edits, i) == []
  {
    if i in edits {
      NothingDiffers(view, view.rows[i], edits[i]);
    }
  }

  lemma {:induction false} CleanUpdates(view: View, edits: map<nat, Record>, n: nat)
    requires WellFormed(view) && n <= |view.rows| && forall i :: 0 <= i < n ==> RowUpdate(view, edits, i) == []
    ensures Updates(view, edits, n) == []
  {
    if n > 0 {
      CleanUpdates(view, edits, n - 1);
    }
  }

  /** A draft that counts as clean has no deletions, no new rows and no effective edit. */
  lemma CleanIs(view: View, draft: Draft)
    requires WellFormed(view) && DistinctNames(view.columns) && Compacted(view, draft).None?
    ensures draft.deletedRowIndexes == [] && draft.newRows == []
    ensures forall i :: i in draft.editedRows ==> !Sends(view, i, draft.editedRows[i])
  {
    forall i | i in draft.editedRows
      ensures !Sends(view, i, draft.editedRows[i])
    {
      assert i !in Effective(view, draft.editedRows);
    }
  }

  lemma CleanSendsNothing(view: View, draft: Draft)
    requires WellFormed(view) && DistinctNames(view.columns) && Good(view, draft) && Compacted(view, draft).None?
    ensures Mutations(view, draft) == [] && Survives(view, draft)
  {
    CleanIs(view, draft);
    forall i | 0 <= i < |view.rows|
      ensures RowUpdate(view, draft.editedRows, i) == []
    {
      CleanRow(view, draft.editedRows, i);
    }
    CleanUpdates(view, draft.editedRows, |view.rows|);
    forall i | i in draft.editedRows
      ensures RowSurvives(view, view.rows[i], draft.editedRows[i])
    {
      UnchangedSurvives(view, view.rows[i], draft.editedRows[i]);
    }
  }

  /** Some edited row differs from the original in a key column, which is never sent. */
  ghost predicate KeyEdited(view: View, draft: Draft)
    requires WellFormed(view) && InRange(view, draft)
  {
    exists i, j :: i in draft.editedRows && 0 <= j < |view.columns| && view.columns[j].name in view.uniqueKey
                   && SentCell(view, view.rows[i], draft.editedRows[i], [], j).Some?
  }

  /** The draft compacts to nothing if and only if it sends nothing and edits no key column. */
  lemma CompactsExactly(view: View, draft: Draft)
    requires WellFormed(view) && DistinctNames(view.columns) && Good(view, draft)
    ensures Compacted(view, draft).None? <==> Mutations(view, draft) == [] && !KeyEdited(view, draft)
  {
    if Compacted(view, draft).None? {
      CleanSendsNothing(view, draft);
      CleanEditsNoKey(view, draft);
    }
    if Mutations(view, draft) == [] && !KeyEdited(view, draft) {
      SilentIsClean(view, draft);
    }
  }

  lemma CleanEditsNoKey(view: View, draft: Draft)
    requires WellFormed(view) && DistinctNames(view.columns) && Good(view, draft) && Compacted(view, draft).None?
    ensures !KeyEdited(view, draft)
  {
    CleanIs(view, draft);
    forall i, j | i in draft.editedRows && 0 <= j < |view.columns|
      ensures SentCell(view, view.rows[i], draft.editedRows[i], [], j).None?
    {
      NothingDiffers(view, view.rows[i], draft.editedRows[i]);
    }
  }

  lemma SilentIsClean(view: View, draft: Draft)
    requires WellFormed(view) && DistinctNames(view.columns) && Good(view, draft)
    requires Mutations(view, draft) == [] && !KeyEdited(view, draft)
    ensures Compacted(view, draft).None?
  {
    NothingSent(view, draft);
    forall i | i in draft.editedRows
      ensures !Sends(view, i, draft.editedRows[i])
    {
      assert RowUpdate(view, draft.editedRows, i) == [];
      SilentRow(view, view.rows[i], draft.editedRows[i]);
    }
    assert Effective(view, draft.editedRows) == map[];
  }

  lemma SilentRow(view: View, row: seq<Cell>, edited: Record)
    requires DistinctNames(view.columns) && Fits(view.columns, row)
    requires Changed(view, row, edited, view.uniqueKey) == map[]
    requires forall j :: 0 <= j < |view.columns| && view.columns[j].name in view.uniqueKey ==> SentCell(view, row, edited, [], j).None?
    ensures Changed(view, row, edited, []) == map[]
  {
    NothingDiffers(view, row, edited);
    ChangedAre(view, row, edited);
    forall j | 0 <= j < |view.columns|
      ensures SentCell(view, row, edited, [], j).None?
    {
      assert view.columns[j].name !in Changed(view, row, edited, view.uniqueKey);
    }
  }

  lemma {:induction false} UpdatesEmpty(view: View, edits: map<nat, Record>, n: nat, i: nat)
    requires WellFormed(view) && i < n <= |view.rows| && Updates(view, edits, n) == []
    ensures RowUpdate(view, edits, i) == []
  {
    if i < n - 1 {
      UpdatesEmpty(view, edits, n - 1, i);
    }
  }

  lemma NothingSent(view: View, draft: Draft)
    requires WellFormed(view) && InRange(view, draft) && Mutations(view, draft) == []
    ensures draft.deletedRowIndexes == [] && draft.newRows == []
    ensures forall i :: i in draft.editedRows ==> RowUpdate(view, draft.editedRows, i) == []
  {
    forall i | i in draft.editedRows
      ensures RowUpdate(view, draft.editedRows, i) == []
    {
      UpdatesEmpty(view, draft.editedRows, |view.rows|, i);
    }
  }

  // ---------------------------------------------------------------- main results

  /** On a table of just the rows shown, saving runs to the end, and the table then holds
      exactly the rows displayed if and only if every edited cell survives being sent. */
  lemma ShownRowsSave(view: View, edits: seq<Edit>)
    requires WellFormed(view) && DistinctNames(view.columns) && Keyed(view)
    requires forall i :: 0 <= i < |edits| ==> Possible(view, edits[i])
    ensures Good(view, OrEmpty(After(view, edits)))
    ensures var draft := After(view, edits);
            && Run(Read(view), Sent(view, draft)).1
            && (AllAgree(view, Run(Read(view), Sent(view, draft)).0, DisplayRows(view, draft))
                <==> Survives(view, OrEmpty(draft)))
  {
    var draft := After(view, edits);
    ReachedIsGood(view, edits);
    MutationsGiveDisplay(view, OrEmpty(draft));
    if !Dirty(view, draft) {
      CleanSendsNothing(view, OrEmpty(draft));
    }
  }

  /** Rows of the table that the view does not show: none has the key of a row shown. */
  ghost predicate Unshown(view: View, others: seq<Record>)
    requires WellFormed(view)
  {
    forall record, i :: record in others && 0 <= i < |view.rows| ==> !Matches(record, KeyOf(view, i))
  }

  /** A delete or update names the key of a row shown. */
  ghost predicate NamesShown(view: View, m: Mutation)
    requires WellFormed(view)
  {
    m.Insert? || exists i :: 0 <= i < |view.rows| && m.key == KeyOf(view, i)
  }

  ghost predicate AllNameShown(view: View, ms: seq<Mutation>)
    requires WellFormed(view)
  {
    forall m :: m in ms ==> NamesShown(view, m)
  }

  lemma {:induction false} DeletesNameShown(view: View, deleted: seq<nat>, n: nat)
    requires WellFormed(view) && n <= |deleted| && forall i :: 0 <= i < |deleted| ==> deleted[i] < |view.rows|
    ensures AllNameShown(view, Deletes(view, deleted, n))
  {
    if n > 0 {
      DeletesNameShown(view, deleted, n - 1);
      assert NamesShown(view, Mutation.Delete(KeyOf(view, deleted[n - 1])));
    }
  }

  lemma {:induction false} UpdatesNameShown(view: View, edits: map<nat, Record>, n: nat)
    requires WellFormed(view) && n <= |view.rows|
    ensures AllNameShown(view, Updates(view, edits, n))
  {
    if n > 0 {
      UpdatesNameShown(view, edits, n - 1);
      forall m | m in RowUpdate(view, edits, n - 1)
        ensures NamesShown(view, m)
      {
        assert m.key == KeyOf(view, n - 1);
      }
    }
  }

  lemma {:induction false} InsertsNameShown(view: View, newRows: seq<Record>, n: nat)
    requires WellFormed(view) && n <= |newRows|
    ensures AllNameShown(view, Inserts(view, newRows, n))
  {
    if n > 0 {
      InsertsNameShown(view, newRows, n - 1);
    }
  }

  lemma SentNameShown(view: View, draft: Option<Draft>)
    requires WellFormed(view) && (draft.Some? ==> InRange(view, draft.value))
    ensures AllNameShown(view, Sent(view, draft))
  {
    if draft.Some? {
      DeletesNameShown(view, draft.value.deletedRowIndexes, |draft.value.deletedRowIndexes|);
      UpdatesNameShown(view, draft.value.editedRows, |view.rows|);
      InsertsNameShown(view, draft.value.newRows, |draft.value.newRows|);
    }
  }

  lemma {:induction false} OthersApart(others: seq<Record>, table: seq<Record>, key: Record, values: Record)
    requires forall record :: record in others ==> !Matches(record, key)
    ensures Count(others + table, key) == Count(table, key)
    ensures Without(others + table, key) == others + Without(table, key)
    ensures Updated(others + table, key, values) == others + Updated(table, key, values)
  {
    if others == [] {
      assert others + table == table;
    } else {
      OthersApart(others[1..], table, key, values);
      assert (others + table)[1..] == others[1..] + table && others[0] in others;
      assert others == [others[0]] + others[1..];
      Reassociate([others[0]], others[1..], Without(table, key));
      Reassociate([others[0]], others[1..], Updated(table, key, values));
    }
  }

  lemma OthersStayOnce(view: View, others: seq<Record>, table: seq<Record>, m: Mutation)
    requires WellFormed(view) && Unshown(view, others) && NamesShown(view, m)
    ensures Perform(others + table, m)
         == match Perform(table, m) case None => None case Some(next) => Some(others + next)
  {
    match m
    case Insert(values) => Reassociate(others, table, [values]);
    case Delete(key) => OthersApart(others, table, key, map[]);
    case Update(key, values) => OthersApart(others, table, key, values);
  }

  /** What is sent passes over the rows not shown. */
  lemma {:induction false} OthersStay(view: View, others: seq<Record>, table: seq<Record>, ms: seq<Mutation>)
    requires WellFormed(view) && Unshown(view, others) && AllNameShown(view, ms)
    ensures Run(others + table, ms) == (others + Run(table, ms).0, Run(table, ms).1)
    decreases |ms|
  {
    if ms != [] {
      assert ms[0] in ms;
      OthersStayOnce(view, others, table, ms[0]);
      if Perform(table, ms[0]).Some? {
        OthersStay(view, others, Perform(table, ms[0]).value, ms[1..]);
      }
    }
  }

  /** For every draft reached by editing a keyed table, whatever other rows the table holds,
      saving runs to the end and leaves those rows as they are, and the rest of the table is
      exactly the rows displayed if and only if every edited cell survives being sent. */
  lemma SavingGivesDisplayExactly(view: View, edits: seq<Edit>, others: seq<Record>)
    requires WellFormed(view) && DistinctNames(view.columns) && Keyed(view) && Unshown(view, others)
    requires forall i :: 0 <= i < |edits| ==> Possible(view, edits[i])
    ensures Good(view, OrEmpty(After(view, edits)))
    ensures var draft := After(view, edits);
            var run := Run(others + Read(view), Sent(view, draft));
            && run.1 && |others| <= |run.0| && run.0[..|others|] == others
            && (AllAgree(view, run.0[|others|..], DisplayRows(view, draft)) <==> Survives(view, OrEmpty(draft)))
  {
    ShownRowsSave(view, edits);
    var draft := After(view, edits);
    SentNameShown(view, draft);
    OthersStay(view, others, Read(view), Sent(view, draft));
    var saved := Run(Read(view), Sent(view, draft)).0;
    assert (others + saved)[..|others|] == others && (others + saved)[|others|..] == saved;
  }

  /** No key column is edited, and the original cells of the rows edited are ones coercion
      leaves as they are. */
  ghost predicate StableRows(view: View, draft: Draft)
    requires WellFormed(view)
  {
    forall i, j :: i in draft.editedRows && i < |view.rows| && 0 <= j < |view.columns| ==>
      if view.columns[j].name in view.uniqueKey then Get(draft.editedRows[i], view.columns[j].name) == view.rows[i][j]
      else Fixed(view, j, view.rows[i][j])
  }

  lemma StableRowsSave(view: View, edits: seq<Edit>)
    requires WellFormed(view) && DistinctNames(view.columns) && Keyed(view)
    requires forall i :: 0 <= i < |edits| ==> Possible(view, edits[i])
    requires StableRows(view, OrEmpty(After(view, edits)))
    ensures InRange(view, OrEmpty(After(view, edits)))
    ensures AllAgree(view, Run(Read(view), Sent(view, After(view, edits))).0, DisplayRows(view, After(view, edits)))
  {
    ShownRowsSave(view, edits);
    var draft := OrEmpty(After(view, edits));
    forall i | i in draft.editedRows
      ensures RowSurvives(view, view.rows[i], draft.editedRows[i])
    {
      StableSurvives(view, i, draft);
    }
  }

  lemma StableSurvives(view: View, i: nat, draft: Draft)
    requires WellFormed(view) && Good(view, draft) && StableRows(view, draft) && i in draft.editedRows
    ensures RowSurvives(view, view.rows[i], draft.editedRows[i])
  {
    var row, edited := view.rows[i], draft.editedRows[i];
    assert EditedCells(view, row, edited);
    forall j | 0 <= j < |view.columns|
      ensures CellSurvives(view, row, edited, j)
    {
      assert edited[view.columns[j].name] == row[j] || Fixed(view, j, edited[view.columns[j].name]);
    }
  }

  // ---------------------------------------------------------------- drafts that do not save what they show

  /** A coerced cell that differs from the row as read is an effective edit. */
  lemma OneEditCounts(view: View, column: nat, coerced: Cell)
    requires WellFormed(view) && DistinctNames(view.columns) && |view.rows| == 1 && column < |view.columns|
    requires CoerceCellValue(view.canon, coerced, view.columns[column].dataType) == coerced
    requires !ValuesEqual(coerced, view.rows[0][column])
    ensures var record := RowToRecord(view.columns, view.rows[0])[view.columns[column].name := coerced];
            Effective(view, map[0 := record]) == map[0 := record]
  {
    var record := RowToRecord(view.columns, view.rows[0])[view.columns[column].name := coerced];
    NothingDiffers(view, view.rows[0], record);
    assert SentCell(view, view.rows[0], record, [], column).Some?;
  }

  /** One edit of a one-row table that differs from the row as read. */
  lemma OneEdit(view: View, column: nat, value: string)
    requires WellFormed(view) && DistinctNames(view.columns) && |view.rows| == 1 && column < |view.columns| && value != ""
    requires var coerced := CoerceCellValue(view.canon, Text(value), view.columns[column].dataType);
             && !ValuesEqual(coerced, view.rows[0][column])
             && !ValuesEqual(coerced, CoerceCellValue(view.canon, view.rows[0][column], view.columns[column].dataType))
    ensures var coerced := CoerceCellValue(view.canon, Text(value), view.columns[column].dataType);
            After(view, [SetCell(0, column, value)])
            == Some(Draft(map[0 := RowToRecord(view.columns, view.rows[0])[view.columns[column].name := coerced]], [], []))
  {
    var edit := SetCell(0, column, value);
    var c := view.columns[column];
    var coerced := CoerceCellValue(view.canon, Text(value), c.dataType);
    var record := RowToRecord(view.columns, view.rows[0])[c.name := coerced];
    assert [edit][..0] == [];
    assert OldRows(view, EmptyDraft()) == [Some(DisplayRow(0, false, view.rows[0]))];
    assert DisplayRows(view, None)[0] == DisplayRow(0, false, view.rows[0]);
    CoerceTwice(view.canon, Text(value), c.dataType);
    OneEditCounts(view, column, coerced);
    assert After(view, []) == None;
    assert After(view, [edit]) == UpdateCell(view, None, 0, column, value);
  }

  /** After one edit of a one-row table, a cell that does not survive breaks the display. */
  lemma OneEditLost(view: View, column: nat, value: string, j: nat)
    requires WellFormed(view) && DistinctNames(view.columns) && Keyed(view) && |view.rows| == 1
    requires column < |view.columns| && j < |view.columns|
    requires var coerced := CoerceCellValue(view.canon, Text(value), view.columns[column].dataType);
             && After(view, [SetCell(0, column, value)])
                == Some(Draft(map[0 := RowToRecord(view.columns, view.rows[0])[view.columns[column].name := coerced]], [], []))
             && !CellSurvives(view, view.rows[0], RowToRecord(view.columns, view.rows[0])[view.columns[column].name := coerced], j)
    ensures InRange(view, OrEmpty(After(view, [SetCell(0, column, value)])))
    ensures var draft := After(view, [SetCell(0, column, value)]);
            !AllAgree(view, Run(Read(view), Sent(view, draft)).0, DisplayRows(view, draft))
  {
    ShownRowsSave(view, [SetCell(0, column, value)]);
    var draft := OrEmpty(After(view, [SetCell(0, column, value)]));
    assert 0 in draft.editedRows;
    assert !RowSurvives(view, view.rows[0], draft.editedRows[0]);
  }

  function BlankView(canon: string -> string): View {
    View([Column("id", ""), Column("a", ""), Column("b", "")], [[Text("k"), Text("x"), Text(" ")]], ["id"], canon)
  }

  /** Editing one cell clears another that holds only blanks: it is shown as before and saved
      as null. */
  lemma BlankCellIsCleared(canon: string -> string)
    ensures var view, draft := BlankView(canon), After(BlankView(canon), [SetCell(0, 1, "y")]);
            && InRange(view, OrEmpty(draft))
            && !AllAgree(view, Run(Read(view), Sent(view, draft)).0, DisplayRows(view, draft))
  {
    var view := BlankView(canon);
    OneKey(view);
    Untyped(canon, "x");
    Untyped(canon, "y");
    OneEdit(view, 1, "y");
    OwnCells(view, view.rows[0]);
    BlankIsNull(canon);
    OneEditLost(view, 1, "y", 2);
  }

  function KeyView(canon: string -> string): View {
    View([Column("id", "")], [[Text("x")]], ["id"], canon)
  }

  /** An edited key is shown and is not saved. */
  lemma KeyEditIsLost(canon: string -> string)
    ensures var view, draft := KeyView(canon), After(KeyView(canon), [SetCell(0, 0, "y")]);
            && InRange(view, OrEmpty(draft))
            && !AllAgree(view, Run(Read(view), Sent(view, draft)).0, DisplayRows(view, draft))
  {
    var view := KeyView(canon);
    OneKey(view);
    Untyped(canon, "x");
    Untyped(canon, "y");
    OneEdit(view, 0, "y");
    OneEditLost(view, 0, "y", 0);
  }

  lemma OneKey(view: View)
    requires WellFormed(view) && DistinctNames(view.columns) && |view.rows| == 1 && view.columns != []
    requires view.columns[0].name == "id" && view.uniqueKey == ["id"] && view.rows[0][0] != Null
    ensures Keyed(view)
  {
    OwnCells(view, view.rows[0]);
  }

  lemma Untyped(canon: string -> string, s: string)
    requires |s| == 1 && !SqlTokens.JsSpace(s[0])
    ensures CoerceCellValue(canon, Text(s), "") == Text(s)
  {
    assert s[..|s|] == s;
    NoTypes();
  }

  lemma BlankIsNull(canon: string -> string)
    ensures CoerceCellValue(canon, Text(" "), "") == Null
  {
    assert " "[1..] == "";
  }

  lemma NoTypes()
    ensures !IsNumericType("") && !IsBooleanType("")
  {
    assert Lower("") == "";
  }
}
