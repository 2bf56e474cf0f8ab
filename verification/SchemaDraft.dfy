/** Column drafts and their operation lists, web/src/features/schema/schemaDraft.ts. */
module SchemaDraft {
  import opened Sequences
  import opened Wrappers
  import opened Text

  datatype Driver = MySQL | Postgres

  datatype Column = Column(name: string, kind: string, nullable: bool, default: Option<string>,
                           comment: Option<string>, primary: bool)

  /** A row of the editor. An absent `originalName` is the empty string, as `||` reads it. */
  datatype Draft = Draft(column: Column, originalName: string, isNew: bool)

  datatype Operation =
    | DropColumn(name: string)
    | AddColumn(column: Column)
    | RenameColumn(name: string, newName: string)
    | AlterColumn(column: Column)
    | SetColumnComment(column: Column)
    | SetPrimary(name: string)
    | DropPrimary

  // ---------------------------------------------------------------- diffColumns

  function Original(item: Draft): string {
    if item.originalName != "" then item.originalName else item.column.name
  }

  function CommentOf(c: Column): string {
    if c.comment.Some? then c.comment.value else ""
  }

  function Find(columns: seq<Column>, name: string): (r: Option<Column>)
    ensures r.Some? ==> r.value in columns && r.value.name == name
    ensures r.None? ==> forall c :: c in columns ==> c.name != name
  {
    if columns == [] then None
    else if columns[0].name == name then Some(columns[0])
    else Find(columns[1..], name)
  }

  function FindPrimary(columns: seq<Column>): (r: Option<string>)
    ensures r.Some? ==> exists c :: c in columns && c.primary && c.name == r.value
    ensures r.None? ==> forall c :: c in columns ==> !c.primary
  {
    if columns == [] then None
    else if columns[0].primary then Some(columns[0].name)
    else FindPrimary(columns[1..])
  }

  function Columns(after: seq<Draft>): (r: seq<Column>)
    ensures |r| == |after|
    ensures forall i :: 0 <= i < |after| ==> r[i] == after[i].column
  {
    seq(|after|, i requires 0 <= i < |after| => after[i].column)
  }

  predicate Altered(original: Column, current: Column) {
    Lower(original.kind) != Lower(current.kind) || original.nullable != current.nullable
    || original.default != current.default
  }

  /** The operations of one retained column. */
  function EditOps(original: Column, current: Column): (ops: seq<Operation>)
  {
    (if original.name != current.name then [RenameColumn(original.name, current.name)] else [])
    + (if Altered(original, current) then [AlterColumn(current)] else [])
    + (if CommentOf(original) != CommentOf(current) then [SetColumnComment(current)] else [])
  }

  function ItemOps(before: seq<Column>, item: Draft): (ops: seq<Operation>)
  {
    if item.isNew then [AddColumn(item.column)]
    else
      match Find(before, Original(item))
      case None => []
      case Some(original) => EditOps(original, item.column)
  }

  function RowOps(before: seq<Column>, after: seq<Draft>): (r: seq<seq<Operation>>)
    ensures |r| == |after| && forall i :: 0 <= i < |after| ==> r[i] == ItemOps(before, after[i])
  {
    seq(|after|, i requires 0 <= i < |after| => ItemOps(before, after[i]))
  }

  /** The first `n` lists, one after the other. */
  function Flat(lists: seq<seq<Operation>>, n: nat): seq<Operation>
    requires n <= |lists|
  {
    if n == 0 then [] else Flat(lists, n - 1) + lists[n - 1]
  }

  /** The operations of the first `n` rows. */
  function ItemsUpTo(before: seq<Column>, after: seq<Draft>, n: nat): seq<Operation>
    requires n <= |after|
  {
    Flat(RowOps(before, after), n)
  }

  /** Drops of the first `n` columns that are not in `kept`. */
  function DropsUpTo(before: seq<Column>, kept: set<string>, n: nat): seq<Operation>
    requires n <= |before|
  {
    if n == 0 then []
    else if before[n - 1].name in kept then DropsUpTo(before, kept, n - 1)
    else DropsUpTo(before, kept, n - 1) + [DropColumn(before[n - 1].name)]
  }

  /** The names rows of the draft stand for, new rows included. */
  function Claimed(after: seq<Draft>): set<string> {
    set item | item in after :: Original(item)
  }

  function PrimaryOps(before: Option<string>, after: Option<string>): (ops: seq<Operation>)
  {
    if before == after then []
    else if after.Some? && after.value != "" then [SetPrimary(after.value)]
    else if before.Some? && before.value != "" then [DropPrimary]
    else []
  }

  /** What `diffColumns` amounts to: drops of the unclaimed columns, each row's edits, the key. */
  function Diff(before: seq<Column>, after: seq<Draft>): seq<Operation> {
    DropsUpTo(before, Claimed(after), |before|)
    + (ItemsUpTo(before, after, |after|) + PrimaryOps(FindPrimary(before), FindPrimary(Columns(after))))
  }

  predicate Kept(op: Operation, after: seq<Draft>) {
    !(op.DropColumn? && exists item :: item in after && Original(item) == op.name)
  }

  function Filtered(ops: seq<Operation>, after: seq<Draft>): seq<Operation> {
    if ops == [] then []
    else if Kept(ops[|ops| - 1], after) then Filtered(ops[..|ops| - 1], after) + [ops[|ops| - 1]]
    else Filtered(ops[..|ops| - 1], after)
  }

  ghost predicate NoDropIn(ops: seq<Operation>) {
    forall i :: 0 <= i < |ops| ==> !ops[i].DropColumn?
  }

  lemma NoDropInBoth(a: seq<Operation>, b: seq<Operation>)
    requires NoDropIn(a) && NoDropIn(b)
    ensures NoDropIn(a + b)
  {
  }

  lemma {:induction false} FlatDropsNothing(lists: seq<seq<Operation>>, n: nat)
    requires n <= |lists| && forall i :: 0 <= i < n ==> NoDropIn(lists[i])
    ensures NoDropIn(Flat(lists, n))
  {
    if n > 0 {
      FlatDropsNothing(lists, n - 1);
      NoDropInBoth(Flat(lists, n - 1), lists[n - 1]);
    }
  }

  lemma RowDropsNothing(before: seq<Column>, item: Draft)
    ensures NoDropIn(ItemOps(before, item))
  {
  }

  lemma RowsDropNothing(before: seq<Column>, after: seq<Draft>)
    ensures NoDropIn(ItemsUpTo(before, after, |after|))
  {
    forall i | 0 <= i < |after|
      ensures NoDropIn(RowOps(before, after)[i])
    {
      RowDropsNothing(before, after[i]);
    }
    FlatDropsNothing(RowOps(before, after), |after|);
  }

  lemma {:induction false} FilteredKeeps(ops: seq<Operation>, more: seq<Operation>, after: seq<Draft>)
    requires NoDropIn(more)
    ensures Filtered(ops + more, after) == Filtered(ops, after) + more
  {
    if more == [] {
      assert ops + more == ops;
    } else {
      var all := ops + more;
      assert all[..|all| - 1] == ops + more[..|more| - 1];
      FilteredKeeps(ops, more[..|more| - 1], after);
      assert more == more[..|more| - 1] + [more[|more| - 1]];
      assert !more[|more| - 1].DropColumn?;
    }
  }

  lemma {:induction false} FilteredDrops(before: seq<Column>, retained: set<string>, after: seq<Draft>, n: nat)
    requires n <= |before| && retained <= Claimed(after)
    ensures Filtered(DropsUpTo(before, retained, n), after) == DropsUpTo(before, Claimed(after), n)
  {
    if n > 0 {
      FilteredDrops(before, retained, after, n - 1);
      var name := before[n - 1].name;
      if name !in retained {
        var ops := DropsUpTo(before, retained, n - 1);
        assert (ops + [DropColumn(name)])[..|ops|] == ops;
        assert Kept(DropColumn(name), after) <==> name !in Claimed(after);
      }
    }
  }

  method Retained(after: seq<Draft>) returns (retained: set<string>)
    ensures retained == set item | item in after && !item.isNew :: Original(item)
  {
    retained := {};
    for i := 0 to |after|
      invariant retained == set item | item in after[..i] && !item.isNew :: Original(item)
    {
      assert after[..i + 1] == after[..i] + [after[i]];
      if !after[i].isNew {
        retained := retained + {Original(after[i])};
      }
    }
    assert after[..|after|] == after;
  }

  method DropUnretained(before: seq<Column>, retained: set<string>) returns (out: seq<Operation>)
    ensures out == DropsUpTo(before, retained, |before|)
  {
    out := [];
    for i := 0 to |before|
      invariant out == DropsUpTo(before, retained, i)
    {
      if before[i].name !in retained {
        out := out + [DropColumn(before[i].name)];
      }
    }
  }

  /** One turn of the row loop: a new row, an unknown original, or up to three edits. */
  method EditRow(before: seq<Column>, current: Draft) returns (out: seq<Operation>)
    ensures out == ItemOps(before, current)
  {
    if current.isNew {
      return [AddColumn(current.column)];
    }
    var original := Find(before, Original(current));
    if original.None? {
      return [];
    }
    out := [];
    if Original(current) != current.column.name {
      out := out + [RenameColumn(Original(current), current.column.name)];
    }
    if Altered(original.value, current.column) {
      out := out + [AlterColumn(current.column)];
    }
    if CommentOf(original.value) != CommentOf(current.column) {
      out := out + [SetColumnComment(current.column)];
    }
  }

  lemma ItemsStep(before: seq<Column>, after: seq<Draft>, n: nat, ops: seq<Operation>)
    requires n < |after| && ops == ItemOps(before, after[n])
    ensures ItemsUpTo(before, after, n + 1) == ItemsUpTo(before, after, n) + ops
  {
    assert RowOps(before, after)[n] == ops;
  }

  method EditRows(before: seq<Column>, after: seq<Draft>) returns (out: seq<Operation>)
    ensures out == ItemsUpTo(before, after, |after|)
  {
    out := [];
    for i := 0 to |after|
      invariant out == ItemsUpTo(before, after, i)
    {
      var ops := EditRow(before, after[i]);
      ItemsStep(before, after, i, ops);
      out := out + ops;
    }
  }

  method FilterKept(out: seq<Operation>, after: seq<Draft>) returns (ops: seq<Operation>)
    ensures ops == Filtered(out, after)
  {
    ops := [];
    for i := 0 to |out|
      invariant ops == Filtered(out[..i], after)
    {
      assert out[..i + 1][..i] == out[..i];
      if Kept(out[i], after) {
        ops := ops + [out[i]];
      }
    }
    assert out[..|out|] == out;
  }

  /** `diffColumns`: drops against the retained names, the rows' edits, the key, and the
      last filter. */
  method DiffColumns(before: seq<Column>, after: seq<Draft>) returns (ops: seq<Operation>)
    ensures ops == Diff(before, after)
  {
    var retained := Retained(after);
    var drops := DropUnretained(before, retained);
    var edits := EditRows(before, after);
    var key := [];
    var beforePrimary, afterPrimary := FindPrimary(before), FindPrimary(Columns(after));
    if beforePrimary != afterPrimary {
      if afterPrimary.Some? && afterPrimary.value != "" {
        key := [SetPrimary(afterPrimary.value)];
      } else if beforePrimary.Some? && beforePrimary.value != "" {
        key := [DropPrimary];
      }
    }
    RowsDropNothing(before, after);
    NoDropInBoth(edits, key);
    FilteredKeeps(drops, edits + key, after);
    FilteredDrops(before, retained, after, |before|);
    ops := FilterKept(drops + (edits + key), after);
  }

  // ---------------------------------------------------------------- what an operation does

  /** A column of the table as the database keeps it. */
  datatype Stored = Stored(kind: string, nullable: bool, default: Option<string>, comment: string, primary: bool)

  type Table = map<string, Stored>

  predicate IsSpace(c: char) {
    c == ' ' || '\t' <= c <= '\r'
  }

  predicate Blank(s: string) {
    forall i :: 0 <= i < |s| ==> IsSpace(s[i])
  }

  /** PostgreSQL is sent no comment for a blank one; MySQL gets the text. */
  function Noted(driver: Driver, comment: string): string {
    if driver == Postgres && Blank(comment) then "" else comment
  }

  /** A key column is never nullable, whatever its definition says. */
  function StoredAs(driver: Driver, c: Column, primary: bool): Stored {
    Stored(c.kind, c.nullable && !primary, c.default, Noted(driver, CommentOf(c)), primary)
  }

  /** The new definition of column `c`. MySQL redefines the whole column. */
  function Redefined(driver: Driver, s: Stored, c: Column): Stored {
    if driver == MySQL then StoredAs(driver, c, s.primary)
    else s.(kind := c.kind, nullable := c.nullable, default := c.default)
  }

  function Recommented(driver: Driver, s: Stored, c: Column): Stored {
    if driver == MySQL then StoredAs(driver, c, s.primary) else s.(comment := Noted(driver, CommentOf(c)))
  }

  predicate HasKey(t: Table) {
    exists n :: n in t && t[n].primary
  }

  /** The key on this column, which becomes NOT NULL, or on none. */
  function WithKey(t: Table, key: Option<string>): Table {
    map n | n in t :: t[n].(primary := key == Some(n), nullable := t[n].nullable && key != Some(n))
  }

  /** None when the database refuses: an operation names a missing column or one that is already
      there; MySQL drops no last column, and no key from a table without one; PostgreSQL makes no
      key column nullable. */
  function Apply(driver: Driver, t: Table, op: Operation): Option<Table> {
    match op
    case DropColumn(name) =>
      if name in t && (driver == MySQL ==> t.Keys != {name}) then Some(t - {name}) else None
    case AddColumn(c) => if c.name in t then None else Some(t[c.name := StoredAs(driver, c, false)])
    case RenameColumn(a, b) => if a in t && b !in t then Some((t - {a})[b := t[a]]) else None
    case AlterColumn(c) =>
      if c.name in t && NullableAllowed(driver, t[c.name], c) then Some(t[c.name := Redefined(driver, t[c.name], c)]) else None
    case SetColumnComment(c) => if c.name in t then Some(t[c.name := Recommented(driver, t[c.name], c)]) else None
    case SetPrimary(name) =>
      if name in t && (driver == MySQL ==> HasKey(t)) then Some(WithKey(t, Some(name))) else None
    case DropPrimary => if driver == MySQL ==> HasKey(t) then Some(WithKey(t, None)) else None
  }

  predicate NullableAllowed(driver: Driver, s: Stored, c: Column) {
    driver == Postgres && s.primary ==> !c.nullable
  }

  function Run(driver: Driver, t: Table, ops: seq<Operation>): Option<Table>
    decreases |ops|
  {
    if ops == [] then Some(t)
    else
      match Apply(driver, t, ops[0])
      case None => None
      case Some(next) => Run(driver, next, ops[1..])
  }

  lemma {:induction false} RunAppend(driver: Driver, t: Table, a: seq<Operation>, b: seq<Operation>)
    ensures Run(driver, t, a + b)
         == match Run(driver, t, a) case None => None case Some(next) => Run(driver, next, b)
    decreases |a|
  {
    if a == [] {
      assert a + b == b;
    } else {
      assert (a + b)[1..] == a[1..] + b;
      var next := Apply(driver, t, a[0]);
      if next.Some? {
        RunAppend(driver, next.value, a[1..], b);
      }
    }
  }

  lemma RunThen(driver: Driver, t: Table, a: seq<Operation>, u: Table, b: seq<Operation>, v: Table)
    requires Run(driver, t, a) == Some(u) && Run(driver, u, b) == Some(v)
    ensures Run(driver, t, a + b) == Some(v)
  {
    RunAppend(driver, t, a, b);
  }

  // ---------------------------------------------------------------- drafts and what they show

  function TableOf(before: seq<Column>): Table {
    map c | c in before :: c.name := Raw(Find(before, c.name).value)
  }

  function Raw(c: Column): Stored {
    Stored(c.kind, c.nullable, c.default, CommentOf(c), c.primary)
  }

  ghost predicate DistinctNames(columns: seq<Column>) {
    forall i, j :: 0 <= i < j < |columns| ==> columns[i].name != columns[j].name
  }

  ghost predicate OnePrimary(columns: seq<Column>) {
    forall i, j :: 0 <= i < j < |columns| ==> !(columns[i].primary && columns[j].primary)
  }

  ghost predicate Named(columns: seq<Column>) {
    forall i :: 0 <= i < |columns| ==> columns[i].name != ""
  }

  /** Columns as a table can have them, but for a nullable key. */
  ghost predicate Proper(columns: seq<Column>) {
    DistinctNames(columns) && OnePrimary(columns) && Named(columns)
  }

  ghost predicate KeysAreNotNull(columns: seq<Column>) {
    forall i :: 0 <= i < |columns| && columns[i].primary ==> !columns[i].nullable
  }

  /** Rows as the editor makes them: a new row has no original, the others each stand for a
      column of their own. */
  ghost predicate Reachable(before: seq<Column>, after: seq<Draft>) {
    && Proper(before) && Proper(Columns(after)) && KeysAreNotNull(before)
    && (forall i :: 0 <= i < |after| && after[i].isNew ==> after[i].originalName == "")
    && (forall i :: 0 <= i < |after| && !after[i].isNew ==> Find(before, Original(after[i])).Some?)
    && DistinctOriginals(after)
  }

  ghost predicate DistinctOriginals(after: seq<Draft>) {
    forall i, j :: 0 <= i < j < |after| && !after[i].isNew && !after[j].isNew ==> Original(after[i]) != Original(after[j])
  }

  /** The stored column is the one shown but for key and NOT NULL: types up to case, an undefined
      comment as empty. */
  predicate Same(driver: Driver, s: Stored, c: Column) {
    Lower(s.kind) == Lower(c.kind) && s.default == c.default
    && Noted(driver, s.comment) == Noted(driver, CommentOf(c))
  }

  ghost predicate Shows(driver: Driver, t: Table, after: seq<Draft>) {
    && (forall n :: n in t <==> exists i :: 0 <= i < |after| && after[i].column.name == n)
    && forall i :: 0 <= i < |after| ==> ShowsAt(driver, t, after[i])
  }

  predicate ShowsAt(driver: Driver, t: Table, item: Draft) {
    item.column.name in t && Same(driver, t[item.column.name], item.column)
    && t[item.column.name].nullable == item.column.nullable
    && t[item.column.name].primary == item.column.primary
  }

  /** Row `i` takes a name that is free when its turn comes: a new row a name no column has,
      unless an earlier row renamed that column; a renamed row no name a later row starts from. */
  ghost predicate NameFree(before: seq<Column>, after: seq<Draft>, i: nat)
    requires i < |after|
  {
    var name := after[i].column.name;
    if after[i].isNew then
      Find(before, name).None? || exists j :: 0 <= j < i && !after[j].isNew && Original(after[j]) == name
    else
      Original(after[i]) == name || forall k :: i < k < |after| && !after[k].isNew ==> Original(after[k]) != name
  }

  ghost predicate NamesFree(before: seq<Column>, after: seq<Draft>) {
    forall i :: 0 <= i < |after| ==> NameFree(before, after, i)
  }

  /** A key of unchanged name is the same column. */
  ghost predicate KeyTraced(before: seq<Column>, after: seq<Draft>) {
    forall i :: 0 <= i < |after| && after[i].column.primary && FindPrimary(before) == Some(after[i].column.name) ==>
      !after[i].isNew && Original(after[i]) == after[i].column.name
  }

  predicate WasPrimary(before: seq<Column>, item: Draft) {
    !item.isNew && var original := Find(before, Original(item)); original.Some? && original.value.primary
  }

  /** MySQL keeps a column throughout: some column is not dropped. */
  predicate ColumnStays(driver: Driver, before: seq<Column>, after: seq<Draft>) {
    driver == MySQL && before != [] ==> exists c :: c in before && c.name in Claimed(after)
  }

  /** When MySQL is to move, set or drop the key, the key column is still there. */
  predicate KeyStays(driver: Driver, before: seq<Column>, after: seq<Draft>) {
    driver == MySQL && FindPrimary(before) != FindPrimary(Columns(after)) ==>
      exists item :: item in after && WasPrimary(before, item)
  }

  /** PostgreSQL is not asked to make the key column nullable. */
  predicate RowAllowed(driver: Driver, before: seq<Column>, item: Draft) {
    driver == Postgres && WasPrimary(before, item) ==> !item.column.nullable
  }

  predicate RowsAllowed(driver: Driver, before: seq<Column>, after: seq<Draft>) {
    forall i :: 0 <= i < |after| ==> RowAllowed(driver, before, after[i])
  }

  /** Neither the column with the key nor the one that had it is shown as nullable. */
  predicate NoKeyNullable(before: seq<Column>, after: seq<Draft>) {
    forall i :: 0 <= i < |after| ==> NotNullAt(before, after[i])
  }

  predicate NotNullAt(before: seq<Column>, item: Draft) {
    item.column.primary || WasPrimary(before, item) ==> !item.column.nullable
  }

  // ---------------------------------------------------------------- the drops

  function DroppedUpTo(before: seq<Column>, kept: set<string>, n: nat): set<string>
    requires n <= |before|
  {
    set i | 0 <= i < n && before[i].name !in kept :: before[i].name
  }

  lemma {:induction false} DropsRun(driver: Driver, before: seq<Column>, kept: set<string>, n: nat)
    requires n <= |before| && DistinctNames(before)
    requires driver == MySQL && n > 0 ==> exists c :: c in before && c.name !in DroppedUpTo(before, kept, n)
    ensures Run(driver, TableOf(before), DropsUpTo(before, kept, n)) == Some(TableOf(before) - DroppedUpTo(before, kept, n))
  {
    if n == 0 {
      assert TableOf(before) - DroppedUpTo(before, kept, n) == TableOf(before);
    } else {
      var name, dropped := before[n - 1].name, DroppedUpTo(before, kept, n - 1);
      assert dropped <= DroppedUpTo(before, kept, n);
      DropsRun(driver, before, kept, n - 1);
      DroppedStep(before, kept, n);
      if name !in kept {
        var t := TableOf(before) - dropped;
        if driver == MySQL {
          NotTheLast(before, kept, n);
        }
        RunAppend(driver, TableOf(before), DropsUpTo(before, kept, n - 1), [DropColumn(name)]);
        RunOne(driver, t, DropColumn(name));
      }
    }
  }

  lemma NotTheLast(before: seq<Column>, kept: set<string>, n: nat)
    requires 0 < n <= |before| && before[n - 1].name !in kept
    requires exists c :: c in before && c.name !in DroppedUpTo(before, kept, n)
    ensures (TableOf(before) - DroppedUpTo(before, kept, n - 1)).Keys != {before[n - 1].name}
  {
    var c :| c in before && c.name !in DroppedUpTo(before, kept, n);
    assert DroppedUpTo(before, kept, n - 1) <= DroppedUpTo(before, kept, n);
    assert before[n - 1].name in DroppedUpTo(before, kept, n);
    assert c.name in TableOf(before) - DroppedUpTo(before, kept, n - 1);
  }

  lemma OneColumnLeft(before: seq<Column>, kept: set<string>, n: nat)
    requires DistinctNames(before) && n + 1 == |before| && forall c :: c in before ==> c.name !in kept
    ensures (TableOf(before) - DroppedUpTo(before, kept, n)).Keys == {before[n].name}
  {
    forall i | 0 <= i < n
      ensures before[i].name in DroppedUpTo(before, kept, n)
    {
      assert before[i] in before;
    }
    assert before[n] in before && before[n].name !in DroppedUpTo(before, kept, n);
    assert forall c :: c in before ==> c == before[n] || c.name in DroppedUpTo(before, kept, n);
  }

  /** MySQL refuses to drop the last of all columns. */
  lemma AllDropsStop(before: seq<Column>, kept: set<string>)
    requires DistinctNames(before) && before != [] && forall c :: c in before ==> c.name !in kept
    ensures Run(MySQL, TableOf(before), DropsUpTo(before, kept, |before|)).None?
  {
    var n := |before| - 1;
    var name := before[n].name;
    assert before[n] in before && name !in DroppedUpTo(before, kept, n);
    DropsRun(MySQL, before, kept, n);
    var t := TableOf(before) - DroppedUpTo(before, kept, n);
    OneColumnLeft(before, kept, n);
    RunAppend(MySQL, TableOf(before), DropsUpTo(before, kept, n), [DropColumn(name)]);
    RunOne(MySQL, t, DropColumn(name));
  }

  lemma DroppedStep(before: seq<Column>, kept: set<string>, n: nat)
    requires 0 < n <= |before| && DistinctNames(before)
    ensures var name, dropped := before[n - 1].name, DroppedUpTo(before, kept, n - 1);
            if name in kept then DroppedUpTo(before, kept, n) == dropped
            else name in TableOf(before) - dropped
                 && TableOf(before) - dropped - {name} == TableOf(before) - DroppedUpTo(before, kept, n)
  {
    var name, dropped := before[n - 1].name, DroppedUpTo(before, kept, n - 1);
    if name in kept {
      assert DroppedUpTo(before, kept, n) == dropped;
    } else {
      assert before[n - 1] in before;
      assert DroppedUpTo(before, kept, n) == dropped + {name};
    }
  }

  lemma RunOne(driver: Driver, t: Table, op: Operation)
    ensures Run(driver, t, [op]) == Apply(driver, t, op)
  {
    assert [op][1..] == [];
  }

  /** The table after the drops. */
  function Remaining(before: seq<Column>, after: seq<Draft>): Table {
    TableOf(before) - DroppedUpTo(before, Claimed(after), |before|)
  }

  lemma RemainingNames(before: seq<Column>, after: seq<Draft>, n: string)
    ensures n in Remaining(before, after) <==> Find(before, n).Some? && n in Claimed(after)
    ensures n in Remaining(before, after) ==> Remaining(before, after)[n] == Raw(Find(before, n).value)
  {
    if Find(before, n).Some? {
      var i :| 0 <= i < |before| && before[i] == Find(before, n).value;
      assert before[i].name == n;
    }
  }

  // ---------------------------------------------------------------- one row

  function Edited(driver: Driver, s: Stored, original: Column, current: Column): Stored {
    var altered := if Altered(original, current) then Redefined(driver, s, current) else s;
    if CommentOf(original) != CommentOf(current) then Recommented(driver, altered, current) else altered
  }

  lemma EditedIsSame(driver: Driver, original: Column, current: Column)
    requires (original.primary ==> !original.nullable) && NullableAllowed(driver, Raw(original), current)
    ensures var s := Edited(driver, Raw(original), original, current);
            && Same(driver, s, current) && s.primary == original.primary
            && s.nullable == (current.nullable && !original.primary)
  {
    assert forall i :: 0 <= i < |""| ==> IsSpace(""[i]);
    NotedTwice(driver, CommentOf(current));
  }

  lemma NotedTwice(driver: Driver, comment: string)
    ensures Noted(driver, Noted(driver, comment)) == Noted(driver, comment)
  {
  }

  lemma EditRuns(driver: Driver, t: Table, original: Column, current: Column)
    requires original.name in t && (current.name == original.name || current.name !in t)
    requires NullableAllowed(driver, t[original.name], current)
    ensures Run(driver, t, EditOps(original, current))
         == Some((t - {original.name})[current.name := Edited(driver, t[original.name], original, current)])
  {
    var rename := if original.name != current.name then [RenameColumn(original.name, current.name)] else [];
    var alter := if Altered(original, current) then [AlterColumn(current)] else [];
    var comment := if CommentOf(original) != CommentOf(current) then [SetColumnComment(current)] else [];
    RunAppend(driver, t, rename + alter, comment);
    RunAppend(driver, t, rename, alter);
    var s := t[original.name];
    var renamed := (t - {original.name})[current.name := s];
    RunRename(driver, t, original.name, current.name);
    var s1 := if Altered(original, current) then Redefined(driver, s, current) else s;
    var altered := renamed[current.name := s1];
    RunOptional(driver, renamed, AlterColumn(current), Altered(original, current), altered);
    var last := (t - {original.name})[current.name := Edited(driver, s, original, current)];
    assert renamed[current.name := Redefined(driver, s, current)] == (t - {original.name})[current.name := Redefined(driver, s, current)];
    assert altered == (t - {original.name})[current.name := s1];
    assert altered[current.name := Recommented(driver, s1, current)] == (t - {original.name})[current.name := Recommented(driver, s1, current)];
    RunOptional(driver, altered, SetColumnComment(current), CommentOf(original) != CommentOf(current), last);
  }

  /** PostgreSQL refuses to make the key column nullable. */
  lemma NullableKeyStops(t: Table, original: Column, current: Column)
    requires original.name in t && (current.name == original.name || current.name !in t)
    requires t[original.name].primary && current.nullable && !original.nullable
    ensures Run(Postgres, t, EditOps(original, current)).None?
  {
    var rename := if original.name != current.name then [RenameColumn(original.name, current.name)] else [];
    var comment := if CommentOf(original) != CommentOf(current) then [SetColumnComment(current)] else [];
    RunRename(Postgres, t, original.name, current.name);
    var renamed := (t - {original.name})[current.name := t[original.name]];
    RunOne(Postgres, renamed, AlterColumn(current));
    RunAppend(Postgres, t, rename, [AlterColumn(current)]);
    RunAppend(Postgres, t, rename + [AlterColumn(current)], comment);
    assert EditOps(original, current) == rename + [AlterColumn(current)] + comment;
  }

  lemma RunRename(driver: Driver, t: Table, a: string, b: string)
    requires a in t && (a == b || b !in t)
    ensures Run(driver, t, if a != b then [RenameColumn(a, b)] else []) == Some((t - {a})[b := t[a]])
  {
    if a == b {
      assert (t - {a})[b := t[a]] == t;
    } else {
      RunOne(driver, t, RenameColumn(a, b));
    }
  }

  lemma RunOptional(driver: Driver, t: Table, op: Operation, needed: bool, result: Table)
    requires if needed then Apply(driver, t, op) == Some(result) else t == result
    ensures Run(driver, t, if needed then [op] else []) == Some(result)
  {
    if needed {
      RunOne(driver, t, op);
    }
  }

  // ---------------------------------------------------------------- all rows

  function DoneNames(after: seq<Draft>, i: nat): set<string>
    requires i <= |after|
  {
    set j | 0 <= j < i :: after[j].column.name
  }

  function Pending(after: seq<Draft>, i: nat): set<string>
    requires i <= |after|
  {
    set k | i <= k < |after| && !after[k].isNew :: Original(after[k])
  }

  predicate RowDone(driver: Driver, before: seq<Column>, t: Table, item: Draft) {
    item.column.name in t && Same(driver, t[item.column.name], item.column)
    && t[item.column.name].primary == WasPrimary(before, item)
    && t[item.column.name].nullable == (item.column.nullable && !WasPrimary(before, item))
  }

  predicate RowPending(before: seq<Column>, t: Table, item: Draft) {
    !item.isNew ==> Original(item) in t && var original := Find(before, Original(item));
                                           original.Some? && t[Original(item)] == Raw(original.value)
  }

  /** The table after the first `i` rows: their names as shown, the later rows' columns as
      they were, and nothing else. */
  ghost predicate Halfway(driver: Driver, before: seq<Column>, after: seq<Draft>, i: nat, t: Table)
    requires i <= |after|
  {
    && t.Keys == DoneNames(after, i) + Pending(after, i)
    && (forall j :: 0 <= j < i ==> RowDone(driver, before, t, after[j]))
    && (forall k :: i <= k < |after| ==> RowPending(before, t, after[k]))
  }

  lemma DropsLeaveHalfway(driver: Driver, before: seq<Column>, after: seq<Draft>)
    requires Reachable(before, after) && NamesFree(before, after)
    ensures Halfway(driver, before, after, 0, Remaining(before, after))
  {
    var t := Remaining(before, after);
    forall n
      ensures n in t.Keys <==> n in Pending(after, 0)
    {
      RemainingNames(before, after, n);
      if n in t.Keys {
        var item :| item in after && Original(item) == n;
        var i :| 0 <= i < |after| && after[i] == item;
        assert NameFree(before, after, i);
      }
    }
    forall k | 0 <= k < |after|
      ensures RowPending(before, t, after[k])
    {
      RemainingNames(before, after, Original(after[k]));
      assert after[k] in after;
    }
  }

  /** A table and the same table with `from` replaced by `to`. */
  ghost predicate Moved(t: Table, next: Table, from: string, to: string) {
    && next.Keys == t.Keys - {from} + {to}
    && forall n :: n in t && n != from && n != to ==> next[n] == t[n]
  }

  lemma NewRow(driver: Driver, before: seq<Column>, after: seq<Draft>, i: nat, t: Table) returns (next: Table)
    requires Reachable(before, after) && i < |after| && NameFree(before, after, i)
    requires Halfway(driver, before, after, i, t) && after[i].isNew
    ensures Run(driver, t, ItemOps(before, after[i])) == Some(next) && Halfway(driver, before, after, i + 1, next)
  {
    var c := after[i].column;
    NameUnused(before, after, i);
    assert Pending(after, i) == Pending(after, i + 1);
    RunOne(driver, t, AddColumn(c));
    next := t[c.name := StoredAs(driver, c, false)];
    NewRowDone(driver, before, after[i], t, next);
    RowFinished(driver, before, after, i, t, next, c.name);
  }

  lemma NewRowDone(driver: Driver, before: seq<Column>, item: Draft, t: Table, next: Table)
    requires item.isNew && next == t[item.column.name := StoredAs(driver, item.column, false)]
    ensures Moved(t, next, item.column.name, item.column.name) && RowDone(driver, before, next, item)
  {
    NotedTwice(driver, CommentOf(item.column));
  }

  /** Row `i` is done: its column replaces the one named `from`, and no other row notices. */
  lemma RowFinished(driver: Driver, before: seq<Column>, after: seq<Draft>, i: nat, t: Table, next: Table, from: string)
    requires i < |after| && Halfway(driver, before, after, i, t)
    requires Moved(t, next, from, after[i].column.name) && RowDone(driver, before, next, after[i])
    requires Pending(after, i) - {from} == Pending(after, i + 1)
    requires from !in DoneNames(after, i) && from !in Pending(after, i + 1)
    requires after[i].column.name !in DoneNames(after, i) && after[i].column.name !in Pending(after, i + 1)
    ensures Halfway(driver, before, after, i + 1, next)
  {
    RowsKept(driver, before, after, i, t, next, from);
    NamesStep(after, i, from);
  }

  lemma NamesStep(after: seq<Draft>, i: nat, from: string)
    requires i < |after| && from !in DoneNames(after, i) && Pending(after, i) - {from} == Pending(after, i + 1)
    ensures DoneNames(after, i) + Pending(after, i) - {from} + {after[i].column.name}
         == DoneNames(after, i + 1) + Pending(after, i + 1)
  {
    assert DoneNames(after, i + 1) == DoneNames(after, i) + {after[i].column.name};
    Regroup(DoneNames(after, i), Pending(after, i), from, after[i].column.name);
  }

  lemma Regroup(done: set<string>, pending: set<string>, from: string, to: string)
    requires from !in done
    ensures done + pending - {from} + {to} == done + {to} + (pending - {from})
  {
  }

  lemma NameUnused(before: seq<Column>, after: seq<Draft>, i: nat)
    requires Reachable(before, after) && i < |after| && NameFree(before, after, i)
    ensures after[i].column.name !in DoneNames(after, i)
    ensures after[i].column.name !in Pending(after, i + 1)
  {
    var name := after[i].column.name;
    forall j | 0 <= j < i
      ensures after[j].column.name != name
    {
      assert Columns(after)[j].name != Columns(after)[i].name;
    }
    assert DistinctOriginals(after);
    forall k | i + 1 <= k < |after| && !after[k].isNew
      ensures Original(after[k]) != name
    {
      assert Find(before, Original(after[k])).Some?;
    }
  }

  /** Rows other than row `i` do not notice a change at their columns' names only elsewhere. */
  lemma RowsKept(driver: Driver, before: seq<Column>, after: seq<Draft>, i: nat, t: Table, next: Table, from: string)
    requires i < |after| && Halfway(driver, before, after, i, t)
    requires Moved(t, next, from, after[i].column.name)
    requires from !in DoneNames(after, i) && from !in Pending(after, i + 1)
    requires after[i].column.name !in DoneNames(after, i) && after[i].column.name !in Pending(after, i + 1)
    ensures forall j :: 0 <= j < i ==> RowDone(driver, before, next, after[j])
    ensures forall k :: i + 1 <= k < |after| ==> RowPending(before, next, after[k])
  {
    forall j | 0 <= j < i
      ensures RowDone(driver, before, next, after[j])
    {
      assert RowDone(driver, before, t, after[j]);
      assert after[j].column.name in DoneNames(after, i);
    }
    forall k | i + 1 <= k < |after|
      ensures RowPending(before, next, after[k])
    {
      assert RowPending(before, t, after[k]);
      if !after[k].isNew {
        assert Original(after[k]) in Pending(after, i + 1);
      }
    }
  }

  /** The turn of a row with an original: the column is as it was and the row's name is free. */
  lemma OldRowReady(driver: Driver, before: seq<Column>, after: seq<Draft>, i: nat, t: Table) returns (original: Column)
    requires Reachable(before, after) && i < |after| && NamesFree(before, after)
    requires Halfway(driver, before, after, i, t) && !after[i].isNew
    ensures Find(before, Original(after[i])) == Some(original) && (original.primary ==> !original.nullable)
    ensures original.name in t && t[original.name] == Raw(original)
    ensures after[i].column.name == original.name || after[i].column.name !in t
    ensures Pending(after, i) - {original.name} == Pending(after, i + 1)
    ensures original.name !in DoneNames(after, i) && original.name !in Pending(after, i + 1)
    ensures after[i].column.name !in DoneNames(after, i) && after[i].column.name !in Pending(after, i + 1)
  {
    original := Find(before, Original(after[i])).value;
    assert NameFree(before, after, i);
    NameUnused(before, after, i);
    OriginalUnused(before, after, i);
    assert RowPending(before, t, after[i]);
    assert Pending(after, i) == Pending(after, i + 1) + {original.name};
  }

  lemma OldRow(driver: Driver, before: seq<Column>, after: seq<Draft>, i: nat, t: Table) returns (next: Table)
    requires Reachable(before, after) && i < |after| && NamesFree(before, after)
    requires Halfway(driver, before, after, i, t) && !after[i].isNew && RowAllowed(driver, before, after[i])
    ensures Run(driver, t, ItemOps(before, after[i])) == Some(next) && Halfway(driver, before, after, i + 1, next)
  {
    var from := Original(after[i]);
    var original := OldRowReady(driver, before, after, i, t);
    next := OldRowRuns(driver, before, after[i], original, t);
    RowFinished(driver, before, after, i, t, next, from);
  }

  lemma OldRowRuns(driver: Driver, before: seq<Column>, item: Draft, original: Column, t: Table) returns (next: Table)
    requires !item.isNew && Find(before, Original(item)) == Some(original)
    requires original.name in t && t[original.name] == Raw(original)
    requires item.column.name == original.name || item.column.name !in t
    requires (original.primary ==> !original.nullable) && RowAllowed(driver, before, item)
    ensures Run(driver, t, ItemOps(before, item)) == Some(next)
    ensures Moved(t, next, original.name, item.column.name) && RowDone(driver, before, next, item)
  {
    EditRuns(driver, t, original, item.column);
    next := (t - {original.name})[item.column.name := Edited(driver, t[original.name], original, item.column)];
    EditedIsSame(driver, original, item.column);
  }

  /** Row `i`'s original column is neither a later row's nor a finished row's name. */
  lemma OriginalUnused(before: seq<Column>, after: seq<Draft>, i: nat)
    requires Reachable(before, after) && NamesFree(before, after) && i < |after| && !after[i].isNew
    ensures Original(after[i]) !in Pending(after, i + 1) && Original(after[i]) !in DoneNames(after, i)
  {
    assert DistinctOriginals(after);
    forall j | 0 <= j < i
      ensures after[j].column.name != Original(after[i])
    {
      assert NameFree(before, after, j);
      assert Find(before, Original(after[i])).Some?;
    }
  }

  lemma {:induction false} RowsRun(driver: Driver, before: seq<Column>, after: seq<Draft>, n: nat, start: Table) returns (t: Table)
    requires Reachable(before, after) && NamesFree(before, after) && n <= |after|
    requires Halfway(driver, before, after, 0, start) && forall i :: 0 <= i < n ==> RowAllowed(driver, before, after[i])
    ensures Run(driver, start, ItemsUpTo(before, after, n)) == Some(t)
    ensures Halfway(driver, before, after, n, t)
  {
    if n == 0 {
      t := start;
    } else {
      var u := RowsRun(driver, before, after, n - 1, start);
      t := OneRow(driver, before, after, n - 1, u);
      RunThen(driver, start, ItemsUpTo(before, after, n - 1), u, ItemOps(before, after[n - 1]), t);
    }
  }

  lemma OneRow(driver: Driver, before: seq<Column>, after: seq<Draft>, i: nat, t: Table) returns (next: Table)
    requires Reachable(before, after) && NamesFree(before, after) && i < |after|
    requires Halfway(driver, before, after, i, t) && RowAllowed(driver, before, after[i])
    ensures Run(driver, t, ItemOps(before, after[i])) == Some(next) && Halfway(driver, before, after, i + 1, next)
  {
    if after[i].isNew {
      assert NameFree(before, after, i);
      next := NewRow(driver, before, after, i, t);
    } else {
      next := OldRow(driver, before, after, i, t);
    }
  }

  // ---------------------------------------------------------------- the key

  lemma {:induction false} PrimaryAt(columns: seq<Column>, i: nat)
    requires OnePrimary(columns) && i < |columns| && columns[i].primary
    ensures FindPrimary(columns) == Some(columns[i].name)
  {
    if i > 0 {
      assert columns[1..][i - 1].primary;
      assert OnePrimary(columns[1..]);
      PrimaryAt(columns[1..], i - 1);
    }
  }

  lemma WasPrimaryIs(before: seq<Column>, item: Draft)
    requires Proper(before)
    ensures WasPrimary(before, item) <==> !item.isNew && FindPrimary(before) == Some(Original(item))
  {
    var original := Find(before, Original(item));
    if original.Some? && original.value.primary {
      var i :| 0 <= i < |before| && before[i] == original.value;
      PrimaryAt(before, i);
    }
    if FindPrimary(before) == Some(Original(item)) {
      var c :| c in before && c.primary && c.name == Original(item);
      var i, j :| 0 <= i < |before| && before[i] == c && 0 <= j < |before| && before[j] == original.value;
      assert DistinctNames(before) && before[i].name == before[j].name;
    }
  }

  lemma ShownPrimary(after: seq<Draft>, i: nat)
    requires Proper(Columns(after)) && i < |after|
    ensures after[i].column.primary <==> FindPrimary(Columns(after)) == Some(after[i].column.name)
  {
    var columns := Columns(after);
    if columns[i].primary {
      PrimaryAt(columns, i);
    }
    if FindPrimary(columns) == Some(columns[i].name) {
      var c :| c in columns && c.primary && c.name == columns[i].name;
      var j :| 0 <= j < |columns| && columns[j] == c;
      assert DistinctNames(columns) && columns[i].name == columns[j].name;
    }
  }

  /** Everything but the key is as shown, and the key is where the retained columns had it. */
  ghost predicate ShowsButKey(driver: Driver, before: seq<Column>, t: Table, after: seq<Draft>) {
    && (forall n :: n in t <==> exists i :: 0 <= i < |after| && after[i].column.name == n)
    && forall i :: 0 <= i < |after| ==> RowDone(driver, before, t, after[i])
  }

  /** The key flag of column `name` after the key operation. */
  predicate FlagAfter(was: Option<string>, now: Option<string>, flag: bool, name: string) {
    if was == now then flag else now == Some(name)
  }

  function Reflagged(t: Table, was: Option<string>, now: Option<string>): Table {
    if was == now then t else WithKey(t, now)
  }

  /** The key operation, where there is one, runs unless MySQL finds no key to drop. */
  lemma KeyOpRuns(driver: Driver, t: Table, was: Option<string>, now: Option<string>)
    requires (now.Some? ==> now.value != "" && now.value in t) && (was.Some? ==> was.value != "")
    ensures Run(driver, t, PrimaryOps(was, now))
         == if driver == MySQL && was != now && !HasKey(t) then None else Some(Reflagged(t, was, now))
  {
    if was != now {
      RunOne(driver, t, if now.Some? then SetPrimary(now.value) else DropPrimary);
    }
  }

  lemma PrimaryNamed(columns: seq<Column>) returns (k: nat)
    requires Named(columns) && FindPrimary(columns).Some?
    ensures k < |columns| && columns[k].primary && FindPrimary(columns) == Some(columns[k].name) && columns[k].name != ""
  {
    var c :| c in columns && c.primary && c.name == FindPrimary(columns).value;
    k :| 0 <= k < |columns| && columns[k] == c;
  }

  lemma KeyRuns(driver: Driver, before: seq<Column>, after: seq<Draft>, t: Table)
    requires Reachable(before, after) && ShowsButKey(driver, before, t, after)
    ensures var was, now := FindPrimary(before), FindPrimary(Columns(after));
            Run(driver, t, PrimaryOps(was, now))
            == if KeyStays(driver, before, after) then Some(Reflagged(t, was, now)) else None
  {
    var was, now := FindPrimary(before), FindPrimary(Columns(after));
    if now.Some? {
      var k := PrimaryNamed(Columns(after));
      assert after[k].column.name in t;
    }
    if was.Some? {
      var k := PrimaryNamed(before);
    }
    KeyOpRuns(driver, t, was, now);
    KeyIsThere(driver, before, after, t);
  }

  /** After the rows the table has a key exactly if the key column was retained. */
  lemma KeyIsThere(driver: Driver, before: seq<Column>, after: seq<Draft>, t: Table)
    requires ShowsButKey(driver, before, t, after)
    ensures HasKey(t) <==> exists item :: item in after && WasPrimary(before, item)
  {
    if HasKey(t) {
      var n :| n in t && t[n].primary;
      var i :| 0 <= i < |after| && after[i].column.name == n;
      assert RowDone(driver, before, t, after[i]);
      assert after[i] in after;
    }
    if item :| item in after && WasPrimary(before, item) {
      var i :| 0 <= i < |after| && after[i] == item;
      assert RowDone(driver, before, t, after[i]);
      assert item.column.name in t && t[item.column.name].primary;
    }
  }

  /** Row `i` gets the key flag it shows: always when the key's name changes, otherwise when
      the key stays with its column. */
  ghost predicate KeyRightAt(before: seq<Column>, after: seq<Draft>, i: nat)
    requires i < |after|
  {
    var was, now := FindPrimary(before), FindPrimary(Columns(after));
    was == now ==> (now == Some(after[i].column.name) <==> !after[i].isNew && was == Some(Original(after[i])))
  }

  lemma FlagIsRight(driver: Driver, before: seq<Column>, after: seq<Draft>, t: Table, i: nat)
    requires Reachable(before, after) && ShowsButKey(driver, before, t, after) && i < |after|
    ensures var was, now, name := FindPrimary(before), FindPrimary(Columns(after)), after[i].column.name;
            && name in t
            && (FlagAfter(was, now, t[name].primary, name) == after[i].column.primary <==> KeyRightAt(before, after, i))
  {
    assert RowDone(driver, before, t, after[i]);
    WasPrimaryIs(before, after[i]);
    ShownPrimary(after, i);
  }

  lemma TracedIsRight(before: seq<Column>, after: seq<Draft>, i: nat)
    requires Reachable(before, after) && KeyTraced(before, after) && i < |after|
    ensures KeyRightAt(before, after, i)
  {
    var was, now := FindPrimary(before), FindPrimary(Columns(after));
    if was == now && now.Some? {
      var k := PrimaryNamed(Columns(after));
      assert !after[k].isNew && Original(after[k]) == after[k].column.name;
      if i != k {
        assert Columns(after)[i].name != Columns(after)[k].name;
        assert DistinctOriginals(after);
      }
    }
  }

  lemma KeyTracedIs(before: seq<Column>, after: seq<Draft>)
    requires Reachable(before, after)
    ensures KeyTraced(before, after) <==> forall i :: 0 <= i < |after| ==> KeyRightAt(before, after, i)
  {
    if KeyTraced(before, after) {
      forall i | 0 <= i < |after|
        ensures KeyRightAt(before, after, i)
      {
        TracedIsRight(before, after, i);
      }
    }
    if forall i :: 0 <= i < |after| ==> KeyRightAt(before, after, i) {
      forall i | 0 <= i < |after| && after[i].column.primary && FindPrimary(before) == Some(after[i].column.name)
        ensures !after[i].isNew && Original(after[i]) == after[i].column.name
      {
        ShownPrimary(after, i);
        assert KeyRightAt(before, after, i);
      }
    }
  }

  // ---------------------------------------------------------------- when a name is taken

  /** No operation of `ops` takes the name `x` away. */
  ghost predicate Leaves(ops: seq<Operation>, x: string) {
    forall i :: 0 <= i < |ops| ==> !ops[i].DropColumn? && !(ops[i].RenameColumn? && ops[i].name == x)
  }

  lemma {:induction false} RunKeeps(driver: Driver, t: Table, ops: seq<Operation>, x: string)
    requires x in t && Leaves(ops, x)
    ensures Run(driver, t, ops).Some? ==> x in Run(driver, t, ops).value
    decreases |ops|
  {
    if ops != [] {
      var next := Apply(driver, t, ops[0]);
      if next.Some? {
        assert !ops[0].DropColumn?;
        RunKeeps(driver, next.value, ops[1..], x);
      }
    }
  }

  lemma LeavesBoth(a: seq<Operation>, b: seq<Operation>, x: string)
    requires Leaves(a, x) && Leaves(b, x)
    ensures Leaves(a + b, x)
  {
  }

  lemma {:induction false} FlatLeaves(lists: seq<seq<Operation>>, n: nat, x: string)
    requires n <= |lists| && forall i :: 0 <= i < n ==> Leaves(lists[i], x)
    ensures Leaves(Flat(lists, n), x)
  {
    if n > 0 {
      FlatLeaves(lists, n - 1, x);
      LeavesBoth(Flat(lists, n - 1), lists[n - 1], x);
    }
  }

  lemma RowLeaves(before: seq<Column>, item: Draft, x: string)
    requires item.isNew || Original(item) != x
    ensures Leaves(ItemOps(before, item), x)
  {
  }

  lemma RowsLeave(before: seq<Column>, after: seq<Draft>, n: nat, x: string)
    requires n <= |after| && forall j :: 0 <= j < n && !after[j].isNew ==> Original(after[j]) != x
    ensures Leaves(ItemsUpTo(before, after, n), x)
  {
    forall i | 0 <= i < n
      ensures Leaves(RowOps(before, after)[i], x)
    {
      RowLeaves(before, after[i], x);
    }
    FlatLeaves(RowOps(before, after), n, x);
  }

  /** A row whose name is taken stops the run. */
  lemma TakenNameStops(driver: Driver, before: seq<Column>, after: seq<Draft>, i: nat, t: Table)
    requires i < |after| && after[i].column.name in t
    requires after[i].isNew || (Original(after[i]) != after[i].column.name && Find(before, Original(after[i])).Some?)
    requires forall j :: 0 <= j < i && !after[j].isNew ==> Original(after[j]) != after[i].column.name
    ensures Run(driver, t, ItemsUpTo(before, after, i + 1)).None?
  {
    var x := after[i].column.name;
    RowsLeave(before, after, i, x);
    RunKeeps(driver, t, ItemsUpTo(before, after, i), x);
    RunAppend(driver, t, ItemsUpTo(before, after, i), ItemOps(before, after[i]));
    var ops := ItemOps(before, after[i]);
    assert ops != [] && (ops[0] == AddColumn(after[i].column) || ops[0] == RenameColumn(Original(after[i]), x));
  }

  lemma NameStays(before: seq<Column>, after: seq<Draft>, i: nat)
    requires Reachable(before, after) && i < |after| && !NameFree(before, after, i)
    ensures after[i].column.name in Remaining(before, after)
    ensures forall j :: 0 <= j < i && !after[j].isNew ==> Original(after[j]) != after[i].column.name
  {
    var x := after[i].column.name;
    RemainingNames(before, after, x);
    if after[i].isNew {
      assert after[i] in after;
    } else {
      var k :| i < k < |after| && !after[k].isNew && Original(after[k]) == x;
      assert after[k] in after && DistinctOriginals(after);
    }
  }

  lemma {:induction false} FlatSplit(lists: seq<seq<Operation>>, i: nat, n: nat) returns (more: seq<Operation>)
    requires i <= n <= |lists|
    ensures Flat(lists, n) == Flat(lists, i) + more
    decreases n
  {
    if i == n {
      more := [];
    } else {
      more := FlatSplit(lists, i, n - 1);
      Reassociate(Flat(lists, i), more, lists[n - 1]);
      more := more + lists[n - 1];
    }
  }

  lemma StaysStopped(driver: Driver, before: seq<Column>, after: seq<Draft>, i: nat, t: Table)
    requires i <= |after| && Run(driver, t, ItemsUpTo(before, after, i)).None?
    ensures Run(driver, t, ItemsUpTo(before, after, |after|)).None?
  {
    var more := FlatSplit(RowOps(before, after), i, |after|);
    StopsThen(driver, t, ItemsUpTo(before, after, i), more);
  }

  lemma StopsThen(driver: Driver, t: Table, a: seq<Operation>, b: seq<Operation>)
    requires Run(driver, t, a).None?
    ensures Run(driver, t, a + b).None?
  {
    RunAppend(driver, t, a, b);
  }

  /** A draft with a name that is not free stops. */
  lemma TakenStops(driver: Driver, before: seq<Column>, after: seq<Draft>, i: nat)
    requires Reachable(before, after) && i < |after| && !NameFree(before, after, i)
    ensures Run(driver, Remaining(before, after), ItemsUpTo(before, after, |after|)).None?
  {
    var t := Remaining(before, after);
    NameStays(before, after, i);
    TakenNameStops(driver, before, after, i, t);
    StaysStopped(driver, before, after, i + 1, t);
  }

  // ---------------------------------------------------------------- main results

  /** The whole run is the rows' run on what the drops leave, then the key's. */
  lemma RunParts(driver: Driver, before: seq<Column>, after: seq<Draft>)
    requires Reachable(before, after) && ColumnStays(driver, before, after)
    ensures Run(driver, TableOf(before), Diff(before, after))
         == match Run(driver, Remaining(before, after), ItemsUpTo(before, after, |after|))
            case None => None
            case Some(t) => Run(driver, t, PrimaryOps(FindPrimary(before), FindPrimary(Columns(after))))
  {
    var rows, key := ItemsUpTo(before, after, |after|), PrimaryOps(FindPrimary(before), FindPrimary(Columns(after)));
    if driver == MySQL && before != [] {
      StayingIsNotDropped(driver, before, after);
    }
    DropsRun(driver, before, Claimed(after), |before|);
    RunAppend(driver, TableOf(before), DropsUpTo(before, Claimed(after), |before|), rows + key);
    RunAppend(driver, Remaining(before, after), rows, key);
  }

  lemma StayingIsNotDropped(driver: Driver, before: seq<Column>, after: seq<Draft>)
    requires ColumnStays(driver, before, after) && driver == MySQL && before != []
    ensures exists c :: c in before && c.name !in DroppedUpTo(before, Claimed(after), |before|)
  {
    var c :| c in before && c.name in Claimed(after);
  }

  lemma DropsStop(before: seq<Column>, after: seq<Draft>)
    requires Reachable(before, after) && !ColumnStays(MySQL, before, after)
    ensures Run(MySQL, TableOf(before), Diff(before, after)).None?
  {
    AllDropsStop(before, Claimed(after));
    StopsThen(MySQL, TableOf(before), DropsUpTo(before, Claimed(after), |before|),
              ItemsUpTo(before, after, |after|) + PrimaryOps(FindPrimary(before), FindPrimary(Columns(after))));
  }

  /** Only one row stands for the key column. */
  lemma OneKeyRow(before: seq<Column>, after: seq<Draft>, i: nat, j: nat)
    requires Reachable(before, after) && i < |after| && j < |after|
    requires WasPrimary(before, after[i]) && WasPrimary(before, after[j])
    ensures i == j
  {
    WasPrimaryIs(before, after[i]);
    WasPrimaryIs(before, after[j]);
    assert DistinctOriginals(after);
  }

  /** The row of the key column, shown as nullable, stops on PostgreSQL. */
  lemma NullableRowStops(before: seq<Column>, after: seq<Draft>, i: nat)
    requires Reachable(before, after) && NamesFree(before, after) && i < |after| && !RowAllowed(Postgres, before, after[i])
    ensures Run(Postgres, Remaining(before, after), ItemsUpTo(before, after, |after|)).None?
  {
    var start := Remaining(before, after);
    DropsLeaveHalfway(Postgres, before, after);
    forall j | 0 <= j < i
      ensures RowAllowed(Postgres, before, after[j])
    {
      if WasPrimary(before, after[j]) {
        OneKeyRow(before, after, i, j);
      }
    }
    var u := RowsRun(Postgres, before, after, i, start);
    var original := OldRowReady(Postgres, before, after, i, u);
    NullableKeyStops(u, original, after[i].column);
    RunAppend(Postgres, start, ItemsUpTo(before, after, i), ItemOps(before, after[i]));
    StaysStopped(Postgres, before, after, i + 1, start);
  }

  /** Nothing the database refuses is in the list. */
  ghost predicate Accepted(driver: Driver, before: seq<Column>, after: seq<Draft>) {
    && NamesFree(before, after) && ColumnStays(driver, before, after) && KeyStays(driver, before, after)
    && RowsAllowed(driver, before, after)
  }

  /** The operations run to the end exactly when every row's name is free at its turn, MySQL
      keeps a column, and the key column if there is a key operation, and PostgreSQL is not asked
      for a nullable key. */
  lemma RunsExactly(driver: Driver, before: seq<Column>, after: seq<Draft>)
    requires Reachable(before, after)
    ensures Run(driver, TableOf(before), Diff(before, after)).Some? <==> Accepted(driver, before, after)
  {
    if !ColumnStays(driver, before, after) {
      DropsStop(before, after);
    } else {
      RunParts(driver, before, after);
      if !NamesFree(before, after) {
        var i :| 0 <= i < |after| && !NameFree(before, after, i);
        TakenStops(driver, before, after, i);
      } else if !RowsAllowed(driver, before, after) {
        var i :| 0 <= i < |after| && !RowAllowed(driver, before, after[i]);
        NullableRowStops(before, after, i);
      } else {
        var t := FreeNamesRun(driver, before, after);
        KeyRuns(driver, before, after, t);
      }
    }
  }

  lemma FreeNamesRun(driver: Driver, before: seq<Column>, after: seq<Draft>) returns (t: Table)
    requires Reachable(before, after) && NamesFree(before, after) && RowsAllowed(driver, before, after)
    ensures Run(driver, Remaining(before, after), ItemsUpTo(before, after, |after|)) == Some(t)
    ensures ShowsButKey(driver, before, t, after)
  {
    DropsLeaveHalfway(driver, before, after);
    t := RowsRun(driver, before, after, |after|, Remaining(before, after));
    assert Pending(after, |after|) == {};
    assert forall n :: n in t.Keys <==> n in DoneNames(after, |after|);
  }

  /** Applying the operations to the table gives exactly the columns shown if and only if nothing
      is refused, a key of unchanged name is the same column, and neither the key column nor the
      one that had the key is shown as nullable. */
  lemma DiffGivesWhatIsShownExactly(driver: Driver, before: seq<Column>, after: seq<Draft>)
    requires Reachable(before, after)
    ensures (exists t :: Run(driver, TableOf(before), Diff(before, after)) == Some(t) && Shows(driver, t, after))
       <==> Accepted(driver, before, after) && KeyTraced(before, after) && NoKeyNullable(before, after)
  {
    RunsExactly(driver, before, after);
    if Accepted(driver, before, after) {
      RunParts(driver, before, after);
      var t := FreeNamesRun(driver, before, after);
      KeyRuns(driver, before, after, t);
      KeyTracedIs(before, after);
      ShownExactly(driver, before, after, t);
      NullsRight(before, after);
    }
  }

  /** Row `i` gets the NOT NULL it shows. */
  predicate NullRightAt(before: seq<Column>, after: seq<Draft>, i: nat)
    requires i < |after|
  {
    var was, now := FindPrimary(before), FindPrimary(Columns(after));
    after[i].column.nullable ==> !WasPrimary(before, after[i]) && !(was != now && now == Some(after[i].column.name))
  }

  lemma NullsRight(before: seq<Column>, after: seq<Draft>)
    requires Reachable(before, after)
    ensures (forall i :: 0 <= i < |after| ==> KeyRightAt(before, after, i) && NullRightAt(before, after, i))
       <==> (forall i :: 0 <= i < |after| ==> KeyRightAt(before, after, i)) && NoKeyNullable(before, after)
  {
    forall i | 0 <= i < |after| && KeyRightAt(before, after, i)
      ensures NullRightAt(before, after, i) <==> NotNullAt(before, after[i])
    {
      ShownPrimary(after, i);
      WasPrimaryIs(before, after[i]);
    }
  }

  lemma RowShown(driver: Driver, before: seq<Column>, after: seq<Draft>, t: Table, i: nat)
    requires Reachable(before, after) && ShowsButKey(driver, before, t, after) && i < |after|
    ensures ShowsAt(driver, Reflagged(t, FindPrimary(before), FindPrimary(Columns(after))), after[i])
       <==> KeyRightAt(before, after, i) && NullRightAt(before, after, i)
  {
    FlagIsRight(driver, before, after, t, i);
    RowReflagged(driver, before, t, after[i], FindPrimary(before), FindPrimary(Columns(after)));
  }

  lemma ShownExactly(driver: Driver, before: seq<Column>, after: seq<Draft>, t: Table)
    requires Reachable(before, after) && ShowsButKey(driver, before, t, after)
    ensures Shows(driver, Reflagged(t, FindPrimary(before), FindPrimary(Columns(after))), after)
       <==> forall i :: 0 <= i < |after| ==> KeyRightAt(before, after, i) && NullRightAt(before, after, i)
  {
    RowsShown(driver, before, after, t);
    EachShown(driver, before, after, t, Reflagged(t, FindPrimary(before), FindPrimary(Columns(after))));
  }

  lemma RowsShown(driver: Driver, before: seq<Column>, after: seq<Draft>, t: Table)
    requires Reachable(before, after) && ShowsButKey(driver, before, t, after)
    ensures forall i :: 0 <= i < |after| ==>
              (ShowsAt(driver, Reflagged(t, FindPrimary(before), FindPrimary(Columns(after))), after[i])
               <==> KeyRightAt(before, after, i) && NullRightAt(before, after, i))
  {
    forall i | 0 <= i < |after|
      ensures ShowsAt(driver, Reflagged(t, FindPrimary(before), FindPrimary(Columns(after))), after[i])
         <==> KeyRightAt(before, after, i) && NullRightAt(before, after, i)
    {
      RowShown(driver, before, after, t, i);
    }
  }

  lemma EachShown(driver: Driver, before: seq<Column>, after: seq<Draft>, t: Table, next: Table)
    requires ShowsButKey(driver, before, t, after) && next.Keys == t.Keys
    requires forall i :: 0 <= i < |after| ==>
               (ShowsAt(driver, next, after[i]) <==> KeyRightAt(before, after, i) && NullRightAt(before, after, i))
    ensures Shows(driver, next, after)
       <==> forall i :: 0 <= i < |after| ==> KeyRightAt(before, after, i) && NullRightAt(before, after, i)
  {
    SameNames(driver, before, after, t, next);
  }

  lemma SameNames(driver: Driver, before: seq<Column>, after: seq<Draft>, t: Table, next: Table)
    requires ShowsButKey(driver, before, t, after) && next.Keys == t.Keys
    ensures Shows(driver, next, after) <==> forall i :: 0 <= i < |after| ==> ShowsAt(driver, next, after[i])
  {
    assert forall n :: n in next <==> n in t;
  }

  lemma RowReflagged(driver: Driver, before: seq<Column>, t: Table, item: Draft, was: Option<string>, now: Option<string>)
    requires RowDone(driver, before, t, item)
    ensures var name, c := item.column.name, item.column;
            ShowsAt(driver, Reflagged(t, was, now), item)
            <==> && FlagAfter(was, now, t[name].primary, name) == c.primary
                 && (c.nullable ==> !WasPrimary(before, item) && !(was != now && now == Some(name)))
  {
  }

  /** No new or renamed-to name is another column's name. */
  ghost predicate NamesApart(before: seq<Column>, after: seq<Draft>) {
    forall i :: 0 <= i < |after| && (after[i].isNew || Original(after[i]) != after[i].column.name) ==>
      Find(before, after[i].column.name).None?
  }

  /** Drafts whose new names are apart apply and give what is shown exactly if MySQL keeps a
      column, and the key column for a key operation, and no key is shown as nullable. */
  lemma ApartDraftsApply(driver: Driver, before: seq<Column>, after: seq<Draft>)
    requires Reachable(before, after) && NamesApart(before, after)
    ensures (exists t :: Run(driver, TableOf(before), Diff(before, after)) == Some(t) && Shows(driver, t, after))
       <==> ColumnStays(driver, before, after) && KeyStays(driver, before, after) && NoKeyNullable(before, after)
  {
    forall i | 0 <= i < |after|
      ensures NameFree(before, after, i)
    {
      assert forall k :: 0 <= k < |after| && !after[k].isNew ==> Find(before, Original(after[k])).Some?;
    }
    forall i | 0 <= i < |after| && after[i].column.primary && FindPrimary(before) == Some(after[i].column.name)
      ensures !after[i].isNew && Original(after[i]) == after[i].column.name
    {
      assert Find(before, after[i].column.name).Some?;
    }
    if NoKeyNullable(before, after) {
      forall i | 0 <= i < |after|
        ensures RowAllowed(driver, before, after[i])
      {
        assert NotNullAt(before, after[i]);
      }
    }
    DiffGivesWhatIsShownExactly(driver, before, after);
  }

  // ---------------------------------------------------------------- untouched drafts and drafts that fail

  /** The editor's rows for a table as loaded. */
  function Loaded(before: seq<Column>): (after: seq<Draft>)
    ensures |after| == |before|
  {
    seq(|before|, i requires 0 <= i < |before| => Draft(before[i], before[i].name, false))
  }

  lemma {:induction false} FindAt(columns: seq<Column>, i: nat)
    requires DistinctNames(columns) && i < |columns|
    ensures Find(columns, columns[i].name) == Some(columns[i])
  {
    if i > 0 {
      FindAt(columns[1..], i - 1);
    }
  }

  lemma NoEditOps(before: seq<Column>, i: nat)
    requires DistinctNames(before) && i < |before|
    ensures ItemOps(before, Loaded(before)[i]) == []
  {
    FindAt(before, i);
    var item := Loaded(before)[i];
    assert Original(item) == before[i].name;
  }

  lemma {:induction false} FlatOfNothing(lists: seq<seq<Operation>>, n: nat)
    requires n <= |lists| && forall i :: 0 <= i < n ==> lists[i] == []
    ensures Flat(lists, n) == []
  {
    if n > 0 {
      FlatOfNothing(lists, n - 1);
    }
  }

  lemma NoEdits(before: seq<Column>)
    requires DistinctNames(before)
    ensures ItemsUpTo(before, Loaded(before), |before|) == []
  {
    forall i | 0 <= i < |before|
      ensures RowOps(before, Loaded(before))[i] == []
    {
      NoEditOps(before, i);
    }
    FlatOfNothing(RowOps(before, Loaded(before)), |before|);
  }

  lemma {:induction false} NoDrops(before: seq<Column>, kept: set<string>, n: nat)
    requires n <= |before| && forall i :: 0 <= i < n ==> before[i].name in kept
    ensures DropsUpTo(before, kept, n) == []
  {
    if n > 0 {
      NoDrops(before, kept, n - 1);
    }
  }

  lemma NothingDropped(before: seq<Column>)
    ensures DropsUpTo(before, Claimed(Loaded(before)), |before|) == []
  {
    var after := Loaded(before);
    forall i | 0 <= i < |before|
      ensures before[i].name in Claimed(after)
    {
      assert after[i] in after && Original(after[i]) == before[i].name;
    }
    NoDrops(before, Claimed(after), |before|);
  }

  /** An untouched draft gives no operations. */
  lemma UntouchedGivesNothing(before: seq<Column>)
    requires DistinctNames(before)
    ensures Diff(before, Loaded(before)) == []
  {
    NothingDropped(before);
    NoEdits(before);
    assert Columns(Loaded(before)) == before;
  }

  function Plain(name: string, primary: bool): Column {
    Column(name, "int", !primary, None, None, primary)
  }

  lemma FindInTwo(a: Column, b: Column)
    requires a.name != b.name
    ensures Find([a, b], a.name) == Some(a) && Find([a, b], b.name) == Some(b)
  {
    assert [a, b][1..] == [b];
  }

  /** Dropping a column and adding one of the same name: the last filter takes the drop back
      and the add meets the old column. */
  lemma ReplacedColumnFails(driver: Driver)
    ensures var before, after := [Plain("a", false)], [Draft(Plain("a", false), "", true)];
            Reachable(before, after) && Run(driver, TableOf(before), Diff(before, after)).None?
  {
    var before, after := [Plain("a", false)], [Draft(Plain("a", false), "", true)];
    assert Columns(after) == [after[0].column];
    assert !NameFree(before, after, 0);
    RunsExactly(driver, before, after);
  }

  /** Two columns that swap names: the first rename meets the second column. */
  lemma SwappedNamesFail(driver: Driver)
    ensures var before := [Plain("a", false), Plain("b", false)];
            var after := [Draft(Plain("b", false), "a", false), Draft(Plain("a", false), "b", false)];
            Reachable(before, after) && Run(driver, TableOf(before), Diff(before, after)).None?
  {
    var before := [Plain("a", false), Plain("b", false)];
    var after := [Draft(Plain("b", false), "a", false), Draft(Plain("a", false), "b", false)];
    FindInTwo(before[0], before[1]);
    assert Columns(after) == [after[0].column, after[1].column];
    assert Original(after[1]) == "b" && !NameFree(before, after, 0);
    RunsExactly(driver, before, after);
  }

  /** Two columns, the first with the key; the second takes its name and key, the first goes. */
  lemma KeyTakenOver(before: seq<Column>, after: seq<Draft>)
    requires before == [Plain("a", true), Plain("b", false)] && after == [Draft(Plain("a", true), "b", false)]
    ensures Reachable(before, after) && NamesFree(before, after) && !KeyTraced(before, after)
    ensures FindPrimary(before) == Some("a") && FindPrimary(Columns(after)) == Some("a")
    ensures RowsAllowed(Postgres, before, after) && before[1] in before && before[1].name in Claimed(after)
  {
    FindInTwo(before[0], before[1]);
    assert Columns(after) == [after[0].column];
    assert after[0] in after && Original(after[0]) == "b" && NameFree(before, after, 0);
    PrimaryAt(before, 0);
    PrimaryAt(Columns(after), 0);
  }

  /** The key column is dropped and another column takes its name and the key: no operation
      moves the key, and the table is left without one. */
  lemma RenamedOntoKeyLosesIt(driver: Driver)
    ensures var before, after := [Plain("a", true), Plain("b", false)], [Draft(Plain("a", true), "b", false)];
            && Reachable(before, after) && Run(driver, TableOf(before), Diff(before, after)).Some?
            && !Shows(driver, Run(driver, TableOf(before), Diff(before, after)).value, after)
  {
    var before, after := [Plain("a", true), Plain("b", false)], [Draft(Plain("a", true), "b", false)];
    KeyTakenOver(before, after);
    RunsExactly(driver, before, after);
    DiffGivesWhatIsShownExactly(driver, before, after);
  }

  /** Two columns, the first with the key, of which only the second stays. */
  lemma KeyColumnDeleted(before: seq<Column>, after: seq<Draft>)
    requires before == [Plain("a", true), Plain("b", false)] && after == [Draft(Plain("b", false), "b", false)]
    ensures Reachable(before, after) && NamesApart(before, after) && NoKeyNullable(before, after)
    ensures FindPrimary(before) == Some("a") && FindPrimary(Columns(after)) == None
    ensures forall item :: item in after ==> !WasPrimary(before, item)
  {
    FindInTwo(before[0], before[1]);
    assert Columns(after) == [after[0].column] && [after[0].column][1..] == [];
    PrimaryAt(before, 0);
  }

  /** The key column is deleted and no other takes the key: the list drops the column and then
      the key, which on MySQL went with the column. PostgreSQL does what is shown. */
  lemma DeletedKeyColumnFails()
    ensures var before, after := [Plain("a", true), Plain("b", false)], [Draft(Plain("b", false), "b", false)];
            && Reachable(before, after)
            && Run(MySQL, TableOf(before), Diff(before, after)).None?
            && exists t :: Run(Postgres, TableOf(before), Diff(before, after)) == Some(t) && Shows(Postgres, t, after)
  {
    var before, after := [Plain("a", true), Plain("b", false)], [Draft(Plain("b", false), "b", false)];
    KeyColumnDeleted(before, after);
    RunsExactly(MySQL, before, after);
    ApartDraftsApply(Postgres, before, after);
  }

  /** A table without a key is given one: MySQL is to drop the key there is not. */
  lemma FirstKeyFails()
    ensures var before, after := [Plain("a", false)], [Draft(Plain("a", true), "a", false)];
            Reachable(before, after) && Run(MySQL, TableOf(before), Diff(before, after)).None?
  {
    var before, after := [Plain("a", false)], [Draft(Plain("a", true), "a", false)];
    assert Columns(after) == [after[0].column];
    PrimaryAt(Columns(after), 0);
    assert before[1..] == [] && FindPrimary(before) == None;
    assert forall item :: item in after ==> !WasPrimary(before, item);
    RunsExactly(MySQL, before, after);
  }
}
