/** Row drafts of a table and the mutations they send:
    web/src/features/table/tableMutations.ts and TableView.tsx. */
module TableDraft {
  import opened Wrappers
  import opened Text
  import SqlTokens

  /** A cell as JSON gives it. A number is known by its text, `String(n)`. */
  datatype Cell = Null | Text(text: string) | Bool(value: bool) | Number(digits: string)

  /** An absent data type is the empty string. */
  datatype Column = Column(name: string, dataType: string)

  type Record = map<string, Cell>

  /** `canon` is the number reader: the text of the number that a numeral stands for. */
  datatype View = View(columns: seq<Column>, rows: seq<seq<Cell>>, uniqueKey: seq<string>, canon: string -> string)

  datatype Draft = Draft(editedRows: map<nat, Record>, newRows: seq<Record>, deletedRowIndexes: seq<nat>)

  // ---------------------------------------------------------------- cells

  predicate IsNumericType(dataType: string) {
    var t := Lower(dataType);
    Contains(t, "int") || Contains(t, "numeric") || Contains(t, "decimal") || Contains(t, "double")
    || Contains(t, "real") || Contains(t, "serial")
  }

  predicate IsBooleanType(dataType: string) {
    Contains(Lower(dataType), "bool")
  }

  /** `String(value)`. */
  function Shown(c: Cell): string {
    match c
    case Null => "null"
    case Text(s) => s
    case Bool(b) => if b then "true" else "false"
    case Number(d) => d
  }

  predicate ValuesEqual(left: Cell, right: Cell) {
    left == right || Shown(left) == Shown(right)
  }

  function TrimLeft(s: string): string {
    if s != "" && SqlTokens.JsSpace(s[0]) then TrimLeft(s[1..]) else s
  }

  function TrimRight(s: string): string {
    if s != "" && SqlTokens.JsSpace(s[|s| - 1]) then TrimRight(s[..|s| - 1]) else s
  }

  function Trim(s: string): string {
    TrimRight(TrimLeft(s))
  }

  predicate AllDigits(s: string) {
    s != "" && forall i :: 0 <= i < |s| ==> IsDigit(s[i])
  }

  /** An optional minus, digits, and optionally a point and digits. */
  predicate IsNumeral(s: string) {
    var body := if s != "" && s[0] == '-' then s[1..] else s;
    var point := IndexOf(body, ".");
    if point == -1 then AllDigits(body) else AllDigits(body[..point]) && AllDigits(body[point + 1..])
  }

  function CoerceCellValue(canon: string -> string, raw: Cell, dataType: string): Cell {
    if !raw.Text? then raw
    else
      var text := Trim(raw.text);
      if text == "" then Null
      else if IsBooleanType(dataType) && Lower(text) == "true" then Bool(true)
      else if IsBooleanType(dataType) && Lower(text) == "false" then Bool(false)
      else if IsNumericType(dataType) && IsNumeral(text) then Number(canon(text))
      else raw
  }

  lemma CoerceTwice(canon: string -> string, raw: Cell, dataType: string)
    ensures CoerceCellValue(canon, CoerceCellValue(canon, raw, dataType), dataType) == CoerceCellValue(canon, raw, dataType)
  {
  }

  // ---------------------------------------------------------------- records

  ghost predicate DistinctNames(columns: seq<Column>) {
    forall i, j :: 0 <= i < j < |columns| ==> columns[i].name != columns[j].name
  }

  predicate Fits(columns: seq<Column>, row: seq<Cell>) {
    |row| == |columns|
  }

  /** `Object.fromEntries`: the cells present, by column name, a later column over an earlier. */
  function Fields(columns: seq<Column>, cells: seq<Option<Cell>>, n: nat): Record
    requires n <= |columns| == |cells|
  {
    if n == 0 then map[]
    else if cells[n - 1].None? then Fields(columns, cells, n - 1)
    else Fields(columns, cells, n - 1)[columns[n - 1].name := cells[n - 1].value]
  }

  lemma {:induction false} FieldsAre(columns: seq<Column>, cells: seq<Option<Cell>>, n: nat)
    requires DistinctNames(columns) && n <= |columns| == |cells|
    ensures forall i :: 0 <= i < n ==> (columns[i].name in Fields(columns, cells, n) <==> cells[i].Some?)
    ensures forall i :: 0 <= i < n && cells[i].Some? ==> Fields(columns, cells, n)[columns[i].name] == cells[i].value
    ensures forall k :: k in Fields(columns, cells, n) ==> exists i :: 0 <= i < n && columns[i].name == k
  {
    if n > 0 {
      FieldsAre(columns, cells, n - 1);
      assert forall i :: 0 <= i < n - 1 ==> columns[i].name != columns[n - 1].name;
    }
  }

  function AllCells(row: seq<Cell>): (r: seq<Option<Cell>>)
    ensures |r| == |row|
  {
    seq(|row|, i requires 0 <= i < |row| => Some(row[i]))
  }

  function RowToRecord(columns: seq<Column>, row: seq<Cell>): Record
    requires Fits(columns, row)
  {
    Fields(columns, AllCells(row), |columns|)
  }

  /** `record[name]`; what is not there is undefined, which every reader here takes as null. */
  function Get(record: Record, name: string): Cell {
    if name in record then record[name] else Null
  }

  function BuildRowKey(columns: seq<Column>, row: seq<Cell>, uniqueKey: seq<string>): Record
    requires Fits(columns, row)
  {
    var record := RowToRecord(columns, row);
    map name | name in uniqueKey :: name := Get(record, name)
  }

  /** The value column `i` sends: none for a key column, nor for one equal to the row's. */
  function SentCell(view: View, row: seq<Cell>, edited: Record, uniqueKey: seq<string>, i: nat): Option<Cell>
    requires i < |view.columns| && Fits(view.columns, row)
  {
    var c := view.columns[i];
    var next := CoerceCellValue(view.canon, Get(edited, c.name), c.dataType);
    if c.name in uniqueKey || ValuesEqual(next, row[i]) then None else Some(next)
  }

  function SentCells(view: View, row: seq<Cell>, edited: Record, uniqueKey: seq<string>): (r: seq<Option<Cell>>)
    requires Fits(view.columns, row)
    ensures |r| == |view.columns|
  {
    seq(|view.columns|, i requires 0 <= i < |view.columns| => SentCell(view, row, edited, uniqueKey, i))
  }

  /** The changed values of an edited row. */
  function Changed(view: View, row: seq<Cell>, edited: Record, uniqueKey: seq<string>): Record
    requires Fits(view.columns, row)
  {
    Fields(view.columns, SentCells(view, row, edited, uniqueKey), |view.columns|)
  }

  function FindIndex(columns: seq<Column>, name: string): (i: int)
    ensures i == -1 || 0 <= i < |columns|
    ensures i == -1 ==> forall k :: 0 <= k < |columns| ==> columns[k].name != name
    ensures i >= 0 ==> columns[i].name == name
  {
    if columns == [] then -1
    else if columns[0].name == name then 0
    else
      var i := FindIndex(columns[1..], name);
      if i == -1 then -1 else i + 1
  }

  /** `buildRowUpdate`: nothing, or the key and the changed values. */
  method BuildRowUpdate(view: View, row: seq<Cell>, edited: Record, uniqueKey: seq<string>)
    returns (r: Option<(Record, Record)>)
    requires DistinctNames(view.columns) && Fits(view.columns, row)
    ensures r == var values := Changed(view, row, edited, uniqueKey);
                 if values == map[] then None else Some((BuildRowKey(view.columns, row, uniqueKey), values))
  {
    var key := BuildRowKey(view.columns, row, uniqueKey);
    var values: Record := map[];
    for i := 0 to |view.columns|
      invariant values == Fields(view.columns, SentCells(view, row, edited, uniqueKey), i)
    {
      var column := view.columns[i];
      if column.name in uniqueKey {
        continue;
      }
      var nextValue := CoerceCellValue(view.canon, Get(edited, column.name), column.dataType);
      var at := FindIndex(view.columns, column.name);
      assert at == i;
      if !ValuesEqual(nextValue, row[at]) {
        values := values[column.name := nextValue];
      }
    }
    return if values == map[] then None else Some((key, values));
  }

  function InsertCells(view: View, row: Record): (r: seq<Option<Cell>>)
    ensures |r| == |view.columns|
  {
    seq(|view.columns|, i requires 0 <= i < |view.columns| =>
      Some(CoerceCellValue(view.canon, Get(row, view.columns[i].name), view.columns[i].dataType)))
  }

  function BuildInsertValues(view: View, row: Record): Record {
    Fields(view.columns, InsertCells(view, row), |view.columns|)
  }

  predicate WellFormed(view: View) {
    forall i :: 0 <= i < |view.rows| ==> Fits(view.columns, view.rows[i])
  }

  /** The edits that would send something if every column could be sent. */
  function Effective(view: View, edits: map<nat, Record>): map<nat, Record>
    requires WellFormed(view)
  {
    map i | i in edits && Sends(view, i, edits[i]) :: edits[i]
  }

  predicate Sends(view: View, i: nat, edited: Record)
    requires WellFormed(view)
  {
    i < |view.rows| && Changed(view, view.rows[i], edited, []) != map[]
  }

  function Compacted(view: View, draft: Draft): Option<Draft>
    requires WellFormed(view)
  {
    var edits := Effective(view, draft.editedRows);
    if draft.deletedRowIndexes == [] && draft.newRows == [] && edits == map[] then None
    else Some(Draft(edits, draft.newRows, draft.deletedRowIndexes))
  }

  function EffectiveIn(view: View, edits: map<nat, Record>, among: set<nat>): map<nat, Record>
    requires WellFormed(view)
  {
    map i | i in edits && i in among && Sends(view, i, edits[i]) :: edits[i]
  }

  lemma EffectiveStep(view: View, edits: map<nat, Record>, among: set<nat>, i: nat)
    requires WellFormed(view) && i in edits
    ensures EffectiveIn(view, edits, among + {i})
         == if Sends(view, i, edits[i]) then EffectiveIn(view, edits, among)[i := edits[i]]
            else EffectiveIn(view, edits, among - {i})
  {
  }

  method IsEffective(view: View, index: nat, edited: Record) returns (r: bool)
    requires WellFormed(view) && DistinctNames(view.columns)
    ensures r == Sends(view, index, edited)
  {
    if index >= |view.rows| {
      return false;
    }
    var update := BuildRowUpdate(view, view.rows[index], edited, []);
    return update.Some?;
  }

  method CompactDraft(view: View, draft: Draft) returns (r: Option<Draft>)
    requires WellFormed(view) && DistinctNames(view.columns)
    ensures r == Compacted(view, draft)
  {
    var edits: map<nat, Record> := map[];
    var todo := draft.editedRows.Keys;
    ghost var done: set<nat> := {};
    while todo != {}
      invariant done + todo == draft.editedRows.Keys && done !! todo
      invariant edits == EffectiveIn(view, draft.editedRows, done)
      decreases |todo|
    {
      var index :| index in todo;
      EffectiveStep(view, draft.editedRows, done, index);
      assert done - {index} == done;
      todo := todo - {index};
      done := done + {index};
      var kept := IsEffective(view, index, draft.editedRows[index]);
      if kept {
        edits := edits[index := draft.editedRows[index]];
      }
    }
    assert edits == Effective(view, draft.editedRows);
    if draft.deletedRowIndexes == [] && draft.newRows == [] && edits == map[] {
      return None;
    }
    return Some(Draft(edits, draft.newRows, draft.deletedRowIndexes));
  }

  // ---------------------------------------------------------------- what is displayed

  datatype DisplayRow = DisplayRow(sourceIndex: int, isNew: bool, values: seq<Cell>)

  function Somes<T>(s: seq<Option<T>>): seq<T> {
    if s == [] then [] else (if s[0].Some? then [s[0].value] else []) + Somes(s[1..])
  }

  function EmptyDraft(): Draft {
    Draft(map[], [], [])
  }

  function OrEmpty(draft: Option<Draft>): Draft {
    if draft.Some? then draft.value else EmptyDraft()
  }

  function EditedValues(view: View, row: seq<Cell>, edits: Record): (r: seq<Cell>)
    requires Fits(view.columns, row)
    ensures |r| == |view.columns|
  {
    seq(|view.columns|, i requires 0 <= i < |view.columns| =>
      if view.columns[i].name in edits then edits[view.columns[i].name] else row[i])
  }

  function NewValues(view: View, row: Record): (r: seq<Cell>)
    ensures |r| == |view.columns|
  {
    seq(|view.columns|, i requires 0 <= i < |view.columns| => Get(row, view.columns[i].name))
  }

  function OldRow(view: View, draft: Draft, i: nat): Option<DisplayRow>
    requires WellFormed(view) && i < |view.rows|
  {
    if i in draft.deletedRowIndexes then None
    else if i !in draft.editedRows then Some(DisplayRow(i, false, view.rows[i]))
    else Some(DisplayRow(i, false, EditedValues(view, view.rows[i], draft.editedRows[i])))
  }

  function OldRows(view: View, draft: Draft): (r: seq<Option<DisplayRow>>)
    requires WellFormed(view)
    ensures |r| == |view.rows|
  {
    seq(|view.rows|, i requires 0 <= i < |view.rows| => OldRow(view, draft, i))
  }

  function NewRows(view: View, draft: Draft): (r: seq<DisplayRow>)
    ensures |r| == |draft.newRows|
  {
    seq(|draft.newRows|, i requires 0 <= i < |draft.newRows| => DisplayRow(-1, true, NewValues(view, draft.newRows[i])))
  }

  function DisplayRows(view: View, draft: Option<Draft>): seq<DisplayRow>
    requires WellFormed(view)
  {
    Somes(OldRows(view, OrEmpty(draft))) + NewRows(view, OrEmpty(draft))
  }

  // ---------------------------------------------------------------- editing

  function NewCell(view: View, draft: Draft, at: int, name: string, value: Cell): Draft {
    if 0 <= at < |draft.newRows| then draft.(newRows := draft.newRows[at := draft.newRows[at][name := value]]) else draft
  }

  /** The edited record of a row after one more cell. */
  function WithCell(view: View, draft: Draft, source: nat, name: string, value: Cell): Record
    requires WellFormed(view) && source < |view.rows|
  {
    (if source in draft.editedRows then draft.editedRows[source] else RowToRecord(view.columns, view.rows[source]))
    [name := value]
  }

  /** An edit that equals the original value: it is kept only while another column differs. */
  function RevertedCell(view: View, draft: Option<Draft>, source: nat, name: string, value: Cell): Option<Draft>
    requires WellFormed(view) && source < |view.rows|
  {
    var edits := OrEmpty(draft).editedRows;
    if source !in edits then draft
    else
      var current := edits[source][name := value];
      var next := if Changed(view, view.rows[source], current, []) == map[] then edits - {source} else edits[source := current];
      Compacted(view, OrEmpty(draft).(editedRows := next))
  }

  function UpdateCell(view: View, draft: Option<Draft>, rowIndex: nat, columnIndex: nat, value: string): Option<Draft>
    requires WellFormed(view) && columnIndex < |view.columns|
  {
    var rows := DisplayRows(view, draft);
    if rowIndex >= |rows| then draft
    else
      var column := view.columns[columnIndex];
      var coerced := CoerceCellValue(view.canon, if value == "" then Null else Text(value), column.dataType);
      var item, base := rows[rowIndex], OrEmpty(draft);
      if item.isNew then
        Compacted(view, NewCell(view, base, rowIndex - (|rows| - |base.newRows|), column.name, coerced))
      else if 0 <= item.sourceIndex < |view.rows| then
        var original := CoerceCellValue(view.canon, view.rows[item.sourceIndex][columnIndex], column.dataType);
        if ValuesEqual(coerced, original) then RevertedCell(view, draft, item.sourceIndex, column.name, coerced)
        else
          var record := WithCell(view, base, item.sourceIndex, column.name, coerced);
          Compacted(view, base.(editedRows := base.editedRows[item.sourceIndex as nat := record]))
      else draft
  }

  function AddRow(view: View, draft: Option<Draft>): Option<Draft> {
    var base := OrEmpty(draft);
    Some(base.(newRows := base.newRows + [RowToRecord(view.columns, seq(|view.columns|, i => Null))]))
  }

  function DeleteRow(view: View, draft: Option<Draft>, selected: nat): Option<Draft>
    requires WellFormed(view)
  {
    var rows := DisplayRows(view, draft);
    if selected >= |rows| then draft
    else
      var item, base := rows[selected], OrEmpty(draft);
      if item.isNew then
        var at := selected - (|rows| - |base.newRows|);
        if 0 <= at < |base.newRows| then Some(base.(newRows := base.newRows[..at] + base.newRows[at + 1..])) else Some(base)
      else if 0 <= item.sourceIndex < |view.rows| then
        var deleted := if item.sourceIndex in base.deletedRowIndexes then base.deletedRowIndexes
                       else base.deletedRowIndexes + [item.sourceIndex];
        Some(Draft(base.editedRows - {item.sourceIndex as nat}, base.newRows, deleted))
      else Some(base)
  }

  datatype Edit = SetCell(row: nat, column: nat, value: string) | NewRow | Remove(row: nat)

  predicate Possible(view: View, edit: Edit) {
    edit.SetCell? ==> edit.column < |view.columns|
  }

  function Step(view: View, draft: Option<Draft>, edit: Edit): Option<Draft>
    requires WellFormed(view) && Possible(view, edit)
  {
    match edit
    case SetCell(row, column, value) => UpdateCell(view, draft, row, column, value)
    case NewRow => AddRow(view, draft)
    case Remove(row) => DeleteRow(view, draft, row)
  }

  /** The draft after some edits, from none. */
  function After(view: View, edits: seq<Edit>): Option<Draft>
    requires WellFormed(view) && forall i :: 0 <= i < |edits| ==> Possible(view, edits[i])
  {
    if edits == [] then None else Step(view, After(view, edits[..|edits| - 1]), edits[|edits| - 1])
  }
}
