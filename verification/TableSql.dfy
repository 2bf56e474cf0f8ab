/** The parameterised statements of api/internal/table/service.go and their reading back. */
module TableSql {
  import opened Wrappers
  import opened Sorting
  import opened Text

  datatype Driver = MySQL | Postgres | Other

  /** `V` is the type of a column value. */
  datatype Mutation<V> = Mutation(schema: string, table: string, values: map<string, V>, key: map<string, V>)

  datatype Statement<V> = Statement(sql: string, args: seq<V>)

  datatype Error = KeyRequired | ValuesRequired | BadIdentifier | BadDriver

  // ---------------------------------------------------------------- sorted keys

  /** The elements of `keys` in ascending order, each once. */
  ghost predicate Lists(list: seq<string>, keys: set<string>) {
    IsSorted(list, Le) && NoDuplicates(list) && forall k :: k in list <==> k in keys
  }

  lemma SameElements<T>(a: seq<T>, b: seq<T>)
    requires NoDuplicates(a) && NoDuplicates(b) && forall x :: x in a <==> x in b
    ensures multiset(a) == multiset(b)
  {
    forall x
      ensures multiset(a)[x] == multiset(b)[x]
    {
      Occurs(a, x);
      Occurs(b, x);
    }
  }

  /** There is only one such list, so the map's iteration order does not matter. */
  lemma ListsOnce(a: seq<string>, b: seq<string>, keys: set<string>)
    requires Lists(a, keys) && Lists(b, keys)
    ensures a == b
  {
    SameElements(a, b);
    LeIsTotalOrder();
    SortedUnique(a, b, Le);
  }

  lemma SortLists(list: seq<string>, keys: set<string>)
    requires NoDuplicates(list) && forall k :: k in list <==> k in keys
    ensures Lists(Sorted(list, Le), keys)
  {
    var sorted := Sorted(list, Le);
    LeIsTotalOrder();
    SortedIsSorted(list, Le);
    MultisetMembers(sorted, list);
    forall i, j | 0 <= i < j < |sorted|
      ensures sorted[i] != sorted[j]
    {
      if sorted[i] == sorted[j] {
        Twice(sorted, i, j);
        Occurs(list, sorted[i]);
      }
    }
  }

  /** `sortedKeys`: the keys in any order, then sorted. */
  method SortedKeys<V>(values: map<string, V>) returns (keys: seq<string>)
    ensures Lists(keys, values.Keys)
  {
    keys := [];
    var todo := values.Keys;
    while todo != {}
      invariant todo <= values.Keys && NoDuplicates(keys)
      invariant forall k :: k in keys <==> k in values.Keys && k !in todo
      decreases |todo|
    {
      var k :| k in todo;
      keys := keys + [k];
      todo := todo - {k};
    }
    SortLists(keys, values.Keys);
    keys := Sorted(keys, Le);
  }

  // ---------------------------------------------------------------- identifiers and placeholders

  predicate IsIdentifier(s: string) {
    s != "" && forall i :: 0 <= i < |s| ==> s[i] != '\0'
  }

  function Mark(driver: Driver): char {
    if driver == MySQL then '`' else '"'
  }

  function Quoted(driver: Driver, name: string): string {
    [Mark(driver)] + Doubled(name, Mark(driver)) + [Mark(driver)]
  }

  function QuoteIdentifier(driver: Driver, identifier: string): Result<string, Error> {
    if !IsIdentifier(identifier) then Err(BadIdentifier)
    else if driver == Other then Err(BadDriver)
    else Ok(Quoted(driver, identifier))
  }

  function QualifiedName(driver: Driver, schema: string, table: string): Result<string, Error> {
    var quotedTable := QuoteIdentifier(driver, table);
    if quotedTable.Err? then quotedTable
    else if schema == "" then quotedTable
    else
      var quotedSchema := QuoteIdentifier(driver, schema);
      if quotedSchema.Err? then quotedSchema else Ok(quotedSchema.value + "." + quotedTable.value)
  }

  function Placeholder(driver: Driver, position: nat): string {
    if driver == Postgres then "$" + Decimal(position) else "?"
  }

  // ---------------------------------------------------------------- the texts

  function Assignment(driver: Driver, column: string, position: nat): string {
    Quoted(driver, column) + " = " + Placeholder(driver, position)
  }

  /** `column = placeholder` for each column, the placeholders numbered after `before` others. */
  function Assignments(driver: Driver, columns: seq<string>, before: nat): (r: seq<string>)
    ensures |r| == |columns|
  {
    seq(|columns|, i requires 0 <= i < |columns| => Assignment(driver, columns[i], before + i + 1))
  }

  function ValuesOf<V>(values: map<string, V>, columns: seq<string>): (r: seq<V>)
    requires forall k :: k in columns ==> k in values
    ensures |r| == |columns|
  {
    seq(|columns|, i requires 0 <= i < |columns| => assert columns[i] in columns; values[columns[i]])
  }

  function TableName(driver: Driver, schema: string, table: string): string {
    if schema == "" then Quoted(driver, table) else Quoted(driver, schema) + "." + Quoted(driver, table)
  }

  // ---------------------------------------------------------------- reading back

  /** A column and the index of the argument its placeholder is bound to. */
  datatype Slot = Slot(column: string, arg: int)

  /** The rest of a quoted identifier after its opening mark, and what follows it. */
  function ReadBody(q: char, s: string): (r: Option<(string, string)>)
    ensures r.Some? ==> |r.value.1| < |s|
  {
    if s == "" then None
    else if s[0] != q then
      match ReadBody(q, s[1..])
      case None => None
      case Some(p) => Some(([s[0]] + p.0, p.1))
    else if |s| > 1 && s[1] == q then
      match ReadBody(q, s[2..])
      case None => None
      case Some(p) => Some(([q] + p.0, p.1))
    else Some(("", s[1..]))
  }

  function ReadIdentifier(driver: Driver, s: string): (r: Option<(string, string)>)
    ensures r.Some? ==> |r.value.1| < |s|
  {
    if s != "" && s[0] == Mark(driver) then ReadBody(Mark(driver), s[1..]) else None
  }

  function After(s: string, prefix: string): Option<string> {
    if prefix <= s then Some(s[|prefix|..]) else None
  }

  function ReadName(driver: Driver, s: string): Option<((string, string), string)> {
    match ReadIdentifier(driver, s)
    case None => None
    case Some(first) =>
      match After(first.1, ".")
      case None => Some((("", first.0), first.1))
      case Some(rest) =>
        match ReadIdentifier(driver, rest)
        case None => None
        case Some(second) => Some(((first.0, second.0), second.1))
  }

  function DigitCount(s: string): (n: nat)
    ensures n <= |s| && forall k :: 0 <= k < n ==> IsDigit(s[k])
  {
    if s == "" || !IsDigit(s[0]) then 0 else 1 + DigitCount(s[1..])
  }

  /** The argument a placeholder takes: the named one on PostgreSQL, the next one on MySQL. */
  function ReadPlaceholder(driver: Driver, s: string, seen: nat): (r: Option<(int, string)>)
    ensures r.Some? ==> |r.value.1| < |s|
  {
    if driver == Postgres then
      if s != "" && s[0] == '$' && DigitCount(s[1..]) > 0 then
        var n := DigitCount(s[1..]);
        Some((DigitsValue(s[1..][..n], 0) - 1, s[1..][n..]))
      else None
    else if s != "" && s[0] == '?' then Some((seen, s[1..]))
    else None
  }

  // ---------------------------------------------------------------- reading is inverse to printing

  lemma {:induction false} ReadDoubled(q: char, name: string, rest: string)
    requires rest == "" || rest[0] != q
    ensures ReadBody(q, Doubled(name, q) + ([q] + rest)) == Some((name, rest))
  {
    var s := Doubled(name, q) + ([q] + rest);
    if name == "" {
      assert s == [q] + rest;
    } else {
      ReadDoubled(q, name[1..], rest);
      var tail := Doubled(name[1..], q) + ([q] + rest);
      if name[0] == q {
        assert s == [q, q] + tail;
        assert s[2..] == tail;
      } else {
        assert s == [name[0]] + tail;
        assert s[1..] == tail;
      }
      assert [name[0]] + name[1..] == name;
    }
  }

  lemma ReadQuoted(driver: Driver, name: string, rest: string)
    requires rest == "" || rest[0] != Mark(driver)
    ensures ReadIdentifier(driver, Quoted(driver, name) + rest) == Some((name, rest))
  {
    var q := Mark(driver);
    var s := Quoted(driver, name) + rest;
    assert s[1..] == Doubled(name, q) + ([q] + rest);
    ReadDoubled(q, name, rest);
  }

  lemma AfterPrefix(prefix: string, rest: string)
    ensures After(prefix + rest, prefix) == Some(rest)
  {
    assert (prefix + rest)[..|prefix|] == prefix;
  }

  lemma ReadTableName(driver: Driver, schema: string, table: string, rest: string)
    requires rest == "" || (rest[0] != Mark(driver) && rest[0] != '.')
    ensures ReadName(driver, TableName(driver, schema, table) + rest) == Some(((schema, table), rest))
  {
    if schema == "" {
      ReadQuoted(driver, table, rest);
    } else {
      var tail := Quoted(driver, table) + rest;
      assert TableName(driver, schema, table) + rest == Quoted(driver, schema) + ("." + tail);
      ReadQuoted(driver, schema, "." + tail);
      AfterPrefix(".", tail);
      ReadQuoted(driver, table, rest);
    }
  }

  lemma {:induction false} CountDigits(d: string, rest: string)
    requires forall k :: 0 <= k < |d| ==> IsDigit(d[k])
    requires rest == "" || !IsDigit(rest[0])
    ensures DigitCount(d + rest) == |d|
  {
    if d == "" {
      assert d + rest == rest;
    } else {
      assert (d + rest)[1..] == d[1..] + rest;
      CountDigits(d[1..], rest);
    }
  }

  /** A placeholder reads back as the argument it was printed for. */
  lemma ReadPrinted(driver: Driver, seen: nat, rest: string)
    requires driver != Other
    requires rest == "" || !IsDigit(rest[0])
    ensures ReadPlaceholder(driver, Placeholder(driver, seen + 1) + rest, seen) == Some((seen as int, rest))
  {
    if driver == Postgres {
      var d := Decimal(seen + 1);
      var s := "$" + d + rest;
      assert s[1..] == d + rest;
      CountDigits(d, rest);
      assert s[1..][..|d|] == d && s[1..][|d|..] == rest;
      DecimalValue(seen + 1);
    } else {
      assert ("?" + rest)[1..] == rest;
    }
  }

  /** The slots the printed columns stand for. */
  function Slots(columns: seq<string>, before: nat): (r: seq<Slot>)
    ensures |r| == |columns|
  {
    seq(|columns|, i requires 0 <= i < |columns| => Slot(columns[i], before + i))
  }

  predicate Ends(driver: Driver, sep: string, rest: string) {
    (rest == "" || (!IsDigit(rest[0]) && rest[0] != Mark(driver))) && !(sep <= rest)
  }

  /** `column = placeholder` read from the front of a text. */
  function ReadSlot(driver: Driver, s: string, seen: nat): (r: Option<(Slot, string)>)
    ensures r.Some? ==> |r.value.1| < |s|
  {
    match ReadIdentifier(driver, s)
    case None => None
    case Some(name) =>
      match After(name.1, " = ")
      case None => None
      case Some(bound) =>
        match ReadPlaceholder(driver, bound, seen)
        case None => None
        case Some(p) => Some((Slot(name.0, p.0), p.1))
  }

  /** Slots with `sep` between. */
  function ReadSlots(driver: Driver, sep: string, s: string, seen: nat): Option<(seq<Slot>, string)>
    decreases |s|
  {
    match ReadSlot(driver, s, seen)
    case None => None
    case Some(first) =>
      match After(first.1, sep)
      case None => Some(([first.0], first.1))
      case Some(more) =>
        match ReadSlots(driver, sep, more, seen + 1)
        case None => None
        case Some(rest) => Some(([first.0] + rest.0, rest.1))
  }

  lemma ReadOneSlot(driver: Driver, column: string, seen: nat, rest: string)
    requires driver != Other
    requires rest == "" || !IsDigit(rest[0])
    ensures ReadSlot(driver, Assignment(driver, column, seen + 1) + rest, seen) == Some((Slot(column, seen), rest))
  {
    var tail := Placeholder(driver, seen + 1) + rest;
    assert Assignment(driver, column, seen + 1) + rest == Quoted(driver, column) + (" = " + tail);
    ReadQuoted(driver, column, " = " + tail);
    AfterPrefix(" = ", tail);
    ReadPrinted(driver, seen, rest);
  }

  lemma AssignmentsTail(driver: Driver, columns: seq<string>, before: nat)
    requires columns != []
    ensures Assignments(driver, columns, before)
         == [Assignment(driver, columns[0], before + 1)] + Assignments(driver, columns[1..], before + 1)
    ensures Slots(columns, before) == [Slot(columns[0], before)] + Slots(columns[1..], before + 1)
  {
  }

  lemma JoinCons(first: string, rest: seq<string>, sep: string, tail: string)
    ensures Join([first] + rest, sep) + tail == if rest == [] then first + tail else first + (sep + (Join(rest, sep) + tail))
  {
    assert ([first] + rest)[1..] == rest;
    if rest != [] {
      assert first + sep + Join(rest, sep) + tail == first + (sep + (Join(rest, sep) + tail));
    }
  }

  lemma {:induction false} ReadAssignments(driver: Driver, sep: string, columns: seq<string>, before: nat, rest: string)
    requires driver != Other && columns != []
    requires sep != "" && !IsDigit(sep[0]) && Ends(driver, sep, rest)
    ensures ReadSlots(driver, sep, Join(Assignments(driver, columns, before), sep) + rest, before)
         == Some((Slots(columns, before), rest))
    decreases |columns|
  {
    AssignmentsTail(driver, columns, before);
    var more := Assignments(driver, columns[1..], before + 1);
    JoinCons(Assignment(driver, columns[0], before + 1), more, sep, rest);
    if more == [] {
      ReadOneSlot(driver, columns[0], before, rest);
      assert |columns[1..]| == 0;
      assert Slots(columns, before) == [Slot(columns[0], before)];
    } else {
      var tail := Join(more, sep) + rest;
      ReadOneSlot(driver, columns[0], before, sep + tail);
      AfterPrefix(sep, tail);
      ReadAssignments(driver, sep, columns[1..], before + 1, rest);
    }
  }

  // ---------------------------------------------------------------- the builders

  /** The columns an UPDATE sets: those that are not part of the key. */
  function Changed<V>(m: Mutation<V>): map<string, V> {
    map k | k in m.values && k !in m.key :: m.values[k]
  }

  predicate ValidTable(driver: Driver, schema: string, table: string) {
    driver != Other && IsIdentifier(table) && (schema == "" || IsIdentifier(schema))
  }

  predicate ValidColumns(columns: set<string>) {
    forall k :: k in columns ==> IsIdentifier(k)
  }

  lemma AssignmentsSnoc(driver: Driver, columns: seq<string>, column: string, before: nat)
    ensures Assignments(driver, columns + [column], before)
         == Assignments(driver, columns, before) + [Assignment(driver, column, before + |columns| + 1)]
  {
  }

  lemma ValuesSnoc<V>(values: map<string, V>, columns: seq<string>, column: string)
    requires forall k :: k in columns ==> k in values
    requires column in values
    ensures ValuesOf(values, columns + [column]) == ValuesOf(values, columns) + [values[column]]
  {
  }

  /** `predicates`: one assignment per column in sorted order, the arguments appended. */
  method Predicates<V>(driver: Driver, values: map<string, V>, args: seq<V>, joiner: string)
    returns (r: Result<string, Error>, extended: seq<V>, ghost keys: seq<string>)
    requires driver != Other
    ensures Lists(keys, values.Keys)
    ensures r.Ok? <==> ValidColumns(values.Keys)
    ensures r.Err? ==> r.error == BadIdentifier
    ensures r.Ok? ==> r.value == Join(Assignments(driver, keys, |args|), joiner)
    ensures r.Ok? ==> extended == args + ValuesOf(values, keys)
  {
    var sorted := SortedKeys(values);
    keys := sorted;
    extended := args;
    var parts: seq<string> := [];
    var i := 0;
    while i < |sorted|
      invariant 0 <= i <= |sorted|
      invariant ValidUpTo(sorted, i)
      invariant parts == Assignments(driver, sorted[..i], |args|)
      invariant Known(values, sorted[..i]) && extended == args + ValuesOf(values, sorted[..i])
    {
      assert sorted[i] in sorted;
      var quoted := QuoteIdentifier(driver, sorted[i]);
      if quoted.Err? {
        return Err(quoted.error), extended, keys;
      }
      OneMoreColumn(driver, values, sorted, i, args);
      extended := extended + [values[sorted[i]]];
      parts := parts + [Assignment(driver, sorted[i], |extended|)];
      i := i + 1;
    }
    assert sorted[..i] == sorted;
    r := Ok(Join(parts, joiner));
  }

  predicate ValidUpTo(columns: seq<string>, n: nat)
    requires n <= |columns|
  {
    forall k :: 0 <= k < n ==> IsIdentifier(columns[k])
  }

  predicate Known<V>(values: map<string, V>, columns: seq<string>) {
    forall k :: k in columns ==> k in values
  }

  lemma OneMoreColumn<V>(driver: Driver, values: map<string, V>, columns: seq<string>, i: nat, args: seq<V>)
    requires i < |columns| && columns[i] in values && Known(values, columns[..i])
    ensures Known(values, columns[..i + 1])
    ensures Assignments(driver, columns[..i + 1], |args|)
         == Assignments(driver, columns[..i], |args|) + [Assignment(driver, columns[i], |args| + i + 1)]
    ensures args + ValuesOf(values, columns[..i + 1]) == args + ValuesOf(values, columns[..i]) + [values[columns[i]]]
  {
    assert columns[..i + 1] == columns[..i] + [columns[i]];
    AssignmentsSnoc(driver, columns[..i], columns[i], |args|);
    ValuesSnoc(values, columns[..i], columns[i]);
  }

  /** The slots name exactly the columns of `values`, in ascending order, and every slot is
      bound to the argument that holds its own column's value. */
  ghost predicate Binds<V>(slots: seq<Slot>, args: seq<V>, values: map<string, V>) {
    && Lists(Columns(slots), values.Keys)
    && forall i :: 0 <= i < |slots| ==>
         && slots[i].column in values
         && 0 <= slots[i].arg < |args| && args[slots[i].arg] == values[slots[i].column]
  }

  function Columns(slots: seq<Slot>): (columns: seq<string>)
    ensures |columns| == |slots|
    ensures forall i :: 0 <= i < |slots| ==> columns[i] == slots[i].column
  {
    if slots == [] then [] else [slots[0].column] + Columns(slots[1..])
  }

  lemma ColumnsOfSlots(columns: seq<string>, before: nat)
    ensures Columns(Slots(columns, before)) == columns
  {
  }

  /** Columns printed after `before` arguments are bound to their values. */
  lemma PrintedBinds<V>(values: map<string, V>, columns: seq<string>, front: seq<V>, back: seq<V>, args: seq<V>)
    requires Lists(columns, values.Keys)
    requires args == front + ValuesOf(values, columns) + back
    ensures Binds(Slots(columns, |front|), args, values)
  {
    var slots := Slots(columns, |front|);
    ColumnsOfSlots(columns, |front|);
    forall i | 0 <= i < |slots|
      ensures slots[i].column in values
      ensures 0 <= slots[i].arg < |args| && args[slots[i].arg] == values[slots[i].column]
    {
      SlotBinds(values, columns, front, back, args, i);
    }
  }

  lemma SlotBinds<V>(values: map<string, V>, columns: seq<string>, front: seq<V>, back: seq<V>, args: seq<V>, i: nat)
    requires i < |columns| && forall k :: k in columns ==> k in values
    requires args == front + ValuesOf(values, columns) + back
    ensures columns[i] in values && |front| + i < |args| && args[|front| + i] == values[columns[i]]
  {
    assert columns[i] in columns;
    assert args[|front| + i] == ValuesOf(values, columns)[i];
  }

  lemma ListsNonEmpty<V>(list: seq<string>, values: map<string, V>)
    requires Lists(list, values.Keys)
    ensures list == [] <==> values == map[]
  {
    if list != [] {
      assert list[0] in values.Keys;
    }
    if values != map[] {
      assert values.Keys != {};
    }
  }

  // ---------------------------------------------------------------- UPDATE

  /** ` WHERE ` and the key columns up to the end of the text. */
  function ReadWhere(driver: Driver, s: string, seen: nat): Option<seq<Slot>> {
    match After(s, " WHERE ")
    case None => None
    case Some(keys) =>
      match ReadSlots(driver, " AND ", keys, seen)
      case None => None
      case Some(r) => if r.1 == "" then Some(r.0) else None
  }

  /** ` SET `, the columns set, and the key columns. */
  function ReadSet(driver: Driver, s: string): Option<(seq<Slot>, seq<Slot>)> {
    match After(s, " SET ")
    case None => None
    case Some(sets) =>
      match ReadSlots(driver, ", ", sets, 0)
      case None => None
      case Some(r) =>
        match ReadWhere(driver, r.1, |r.0|)
        case None => None
        case Some(keys) => Some((r.0, keys))
  }

  /** What an UPDATE says. */
  datatype UpdateParts = UpdateParts(schema: string, table: string, sets: seq<Slot>, keys: seq<Slot>)

  function ReadUpdate(driver: Driver, sql: string): Option<UpdateParts> {
    match After(sql, "UPDATE ")
    case None => None
    case Some(s) =>
      match ReadName(driver, s)
      case None => None
      case Some(name) =>
        match ReadSet(driver, name.1)
        case None => None
        case Some(slots) => Some(UpdateParts(name.0.0, name.0.1, slots.0, slots.1))
  }

  lemma WhereReadsBack(driver: Driver, ks: seq<string>, seen: nat)
    requires driver != Other && ks != []
    ensures ReadWhere(driver, " WHERE " + Join(Assignments(driver, ks, seen), " AND "), seen) == Some(Slots(ks, seen))
  {
    var text := Join(Assignments(driver, ks, seen), " AND ");
    AfterPrefix(" WHERE ", text);
    ReadAssignments(driver, " AND ", ks, seen, "");
    assert text + "" == text;
  }

  lemma SetReadsBack(driver: Driver, vs: seq<string>, ks: seq<string>)
    requires driver != Other && vs != [] && ks != []
    ensures ReadSet(driver, " SET " + (Join(Assignments(driver, vs, 0), ", ")
                                       + (" WHERE " + Join(Assignments(driver, ks, |vs|), " AND "))))
         == Some((Slots(vs, 0), Slots(ks, |vs|)))
  {
    var where_ := " WHERE " + Join(Assignments(driver, ks, |vs|), " AND ");
    var sets := Join(Assignments(driver, vs, 0), ", ");
    AfterPrefix(" SET ", sets + where_);
    ReadAssignments(driver, ", ", vs, 0, where_);
    WhereReadsBack(driver, ks, |vs|);
  }

  lemma UpdateReadsBack(driver: Driver, schema: string, table: string, vs: seq<string>, ks: seq<string>, sets: string, where_: string)
    requires driver != Other && vs != [] && ks != []
    requires sets == Join(Assignments(driver, vs, 0), ", ") && where_ == Join(Assignments(driver, ks, |vs|), " AND ")
    ensures ReadUpdate(driver, "UPDATE " + TableName(driver, schema, table) + " SET " + sets + " WHERE " + where_)
         == Some(UpdateParts(schema, table, Slots(vs, 0), Slots(ks, |vs|)))
  {
    var name := TableName(driver, schema, table);
    var rest := " SET " + (sets + (" WHERE " + where_));
    assert "UPDATE " + name + " SET " + sets + " WHERE " + where_ == "UPDATE " + (name + rest);
    AfterPrefix("UPDATE ", name + rest);
    ReadTableName(driver, schema, table, rest);
    SetReadsBack(driver, vs, ks);
  }

  /** The UPDATE recovers its mutation: table, changed columns and key columns, each bound to
      the argument with its own value, and no argument to spare. */
  ghost predicate UpdateRecovers<V>(driver: Driver, statement: Statement<V>, mutation: Mutation<V>) {
    var read := ReadUpdate(driver, statement.sql);
    && read.Some? && read.value.schema == mutation.schema && read.value.table == mutation.table
    && Binds(read.value.sets, statement.args, Changed(mutation))
    && Binds(read.value.keys, statement.args, mutation.key)
    && |statement.args| == |read.value.sets| + |read.value.keys|
  }

  lemma UpdateBinds<V>(m: Mutation<V>, vs: seq<string>, ks: seq<string>, args: seq<V>)
    requires Lists(vs, Changed(m).Keys) && Lists(ks, m.key.Keys)
    requires args == ValuesOf(Changed(m), vs) + ValuesOf(m.key, ks)
    ensures Binds(Slots(vs, 0), args, Changed(m)) && Binds(Slots(ks, |vs|), args, m.key)
  {
    var setArgs, keyArgs := ValuesOf(Changed(m), vs), ValuesOf(m.key, ks);
    assert args == [] + setArgs + keyArgs;
    PrintedBinds(Changed(m), vs, [], keyArgs, args);
    assert args == setArgs + keyArgs + [];
    PrintedBinds(m.key, ks, setArgs, [], args);
  }

  lemma UpdateIsRight<V>(driver: Driver, m: Mutation<V>, vs: seq<string>, ks: seq<string>, sets: string, where_: string, args: seq<V>)
    requires driver != Other && m.key != map[] && Changed(m) != map[]
    requires Lists(vs, Changed(m).Keys) && Lists(ks, m.key.Keys)
    requires sets == Join(Assignments(driver, vs, 0), ", ") && where_ == Join(Assignments(driver, ks, |vs|), " AND ")
    requires args == ValuesOf(Changed(m), vs) + ValuesOf(m.key, ks)
    ensures UpdateRecovers(driver, Statement("UPDATE " + TableName(driver, m.schema, m.table) + " SET " + sets + " WHERE " + where_, args), m)
  {
    ListsNonEmpty(vs, Changed(m));
    ListsNonEmpty(ks, m.key);
    UpdateReadsBack(driver, m.schema, m.table, vs, ks, sets, where_);
    UpdateBinds(m, vs, ks, args);
  }

  /** The first loop of `BuildUpdate`: values that are not key columns. */
  method ChangedValues<V>(mutation: Mutation<V>) returns (values: map<string, V>)
    ensures values == Changed(mutation)
  {
    values := map[];
    var todo := mutation.values.Keys;
    while todo != {}
      invariant todo <= mutation.values.Keys
      invariant values == map k | k in mutation.values && k !in todo && k !in mutation.key :: mutation.values[k]
      decreases |todo|
    {
      var name :| name in todo;
      todo := todo - {name};
      if name !in mutation.key {
        values := values[name := mutation.values[name]];
      }
    }
  }

  /** The rest of `BuildUpdate`, once the table has its name. */
  method UpdateStatement<V>(driver: Driver, mutation: Mutation<V>, values: map<string, V>, tableName: string)
    returns (r: Result<Statement<V>, Error>)
    requires driver != Other && mutation.key != map[] && values == Changed(mutation) && values != map[]
    requires tableName == TableName(driver, mutation.schema, mutation.table)
    ensures r.Ok? <==> ValidColumns(Changed(mutation).Keys) && ValidColumns(mutation.key.Keys)
    ensures r.Ok? ==> UpdateRecovers(driver, r.value, mutation)
  {
    var sets, setArgs, vs := Predicates(driver, values, [], ", ");
    if sets.Err? {
      return Err(sets.error);
    }
    assert setArgs == ValuesOf(values, vs);
    var where_, args, ks := Predicates(driver, mutation.key, setArgs, " AND ");
    if where_.Err? {
      return Err(where_.error);
    }
    UpdateIsRight(driver, mutation, vs, ks, sets.value, where_.value, args);
    return Ok(Statement("UPDATE " + tableName + " SET " + sets.value + " WHERE " + where_.value, args));
  }

  /** `BuildUpdate` succeeds exactly on a key, a changed value and valid names; reading its
      text back recovers the mutation. */
  method BuildUpdate<V>(driver: Driver, mutation: Mutation<V>) returns (r: Result<Statement<V>, Error>)
    ensures mutation.key == map[] ==> r == Err(KeyRequired)
    ensures mutation.key != map[] && Changed(mutation) == map[] ==> r == Err(ValuesRequired)
    ensures r.Ok? <==> mutation.key != map[] && Changed(mutation) != map[]
                       && ValidTable(driver, mutation.schema, mutation.table)
                       && ValidColumns(Changed(mutation).Keys) && ValidColumns(mutation.key.Keys)
    ensures r.Ok? ==> UpdateRecovers(driver, r.value, mutation)
  {
    if mutation.key == map[] {
      return Err(KeyRequired);
    }
    var values := ChangedValues(mutation);
    if values == map[] {
      return Err(ValuesRequired);
    }
    var tableName := QualifiedName(driver, mutation.schema, mutation.table);
    if tableName.Err? {
      return Err(tableName.error);
    }
    r := UpdateStatement(driver, mutation, values, tableName.value);
  }

  // ---------------------------------------------------------------- DELETE

  datatype DeleteParts = DeleteParts(schema: string, table: string, keys: seq<Slot>)

  function ReadDelete(driver: Driver, sql: string): Option<DeleteParts> {
    match After(sql, "DELETE FROM ")
    case None => None
    case Some(s) =>
      match ReadName(driver, s)
      case None => None
      case Some(name) =>
        match ReadWhere(driver, name.1, 0)
        case None => None
        case Some(keys) => Some(DeleteParts(name.0.0, name.0.1, keys))
  }

  ghost predicate DeleteRecovers<V>(driver: Driver, statement: Statement<V>, mutation: Mutation<V>) {
    var read := ReadDelete(driver, statement.sql);
    && read.Some? && read.value.schema == mutation.schema && read.value.table == mutation.table
    && Binds(read.value.keys, statement.args, mutation.key)
    && |statement.args| == |read.value.keys|
  }

  lemma DeleteIsRight<V>(driver: Driver, m: Mutation<V>, ks: seq<string>, where_: string, args: seq<V>)
    requires driver != Other && m.key != map[] && Lists(ks, m.key.Keys)
    requires where_ == Join(Assignments(driver, ks, 0), " AND ") && args == ValuesOf(m.key, ks)
    ensures DeleteRecovers(driver, Statement("DELETE FROM " + TableName(driver, m.schema, m.table) + " WHERE " + where_, args), m)
  {
    ListsNonEmpty(ks, m.key);
    var name, rest := TableName(driver, m.schema, m.table), " WHERE " + where_;
    assert "DELETE FROM " + name + " WHERE " + where_ == "DELETE FROM " + (name + rest);
    AfterPrefix("DELETE FROM ", name + rest);
    ReadTableName(driver, m.schema, m.table, rest);
    WhereReadsBack(driver, ks, 0);
    PrintedBinds(m.key, ks, [], [], args);
  }

  /** The rest of `BuildDelete`, once the table has its name. */
  method DeleteStatement<V>(driver: Driver, mutation: Mutation<V>, tableName: string) returns (r: Result<Statement<V>, Error>)
    requires driver != Other && mutation.key != map[] && tableName == TableName(driver, mutation.schema, mutation.table)
    ensures r.Ok? <==> ValidColumns(mutation.key.Keys)
    ensures r.Ok? ==> DeleteRecovers(driver, r.value, mutation)
  {
    var where_, args, ks := Predicates(driver, mutation.key, [], " AND ");
    if where_.Err? {
      return Err(where_.error);
    }
    assert args == ValuesOf(mutation.key, ks);
    DeleteIsRight(driver, mutation, ks, where_.value, args);
    return Ok(Statement("DELETE FROM " + tableName + " WHERE " + where_.value, args));
  }

  /** `BuildDelete` succeeds exactly on a key and valid names; its text recovers the mutation. */
  method BuildDelete<V>(driver: Driver, mutation: Mutation<V>) returns (r: Result<Statement<V>, Error>)
    ensures mutation.key == map[] ==> r == Err(KeyRequired)
    ensures r.Ok? <==> mutation.key != map[] && ValidTable(driver, mutation.schema, mutation.table)
                       && ValidColumns(mutation.key.Keys)
    ensures r.Ok? ==> DeleteRecovers(driver, r.value, mutation)
  {
    if mutation.key == map[] {
      return Err(KeyRequired);
    }
    var tableName := QualifiedName(driver, mutation.schema, mutation.table);
    if tableName.Err? {
      return Err(tableName.error);
    }
    r := DeleteStatement(driver, mutation, tableName.value);
  }

  // ---------------------------------------------------------------- INSERT

  function QuotedAll(driver: Driver, columns: seq<string>): (r: seq<string>)
    ensures |r| == |columns|
  {
    seq(|columns|, i requires 0 <= i < |columns| => Quoted(driver, columns[i]))
  }

  function Placeholders(driver: Driver, n: nat, before: nat): (r: seq<string>)
    ensures |r| == n
  {
    seq(n, i requires 0 <= i < n => Placeholder(driver, before + i + 1))
  }

  function ReadIdentifiers(driver: Driver, s: string): Option<(seq<string>, string)>
    decreases |s|
  {
    match ReadIdentifier(driver, s)
    case None => None
    case Some(first) =>
      match After(first.1, ", ")
      case None => Some(([first.0], first.1))
      case Some(more) =>
        match ReadIdentifiers(driver, more)
        case None => None
        case Some(rest) => Some(([first.0] + rest.0, rest.1))
  }

  function ReadPlaceholders(driver: Driver, s: string, seen: nat): Option<(seq<int>, string)>
    decreases |s|
  {
    match ReadPlaceholder(driver, s, seen)
    case None => None
    case Some(first) =>
      match After(first.1, ", ")
      case None => Some(([first.0], first.1))
      case Some(more) =>
        match ReadPlaceholders(driver, more, seen + 1)
        case None => None
        case Some(rest) => Some(([first.0] + rest.0, rest.1))
  }

  lemma {:induction false} IdentifiersReadBack(driver: Driver, columns: seq<string>, rest: string)
    requires columns != []
    requires Ends(driver, ", ", rest)
    ensures ReadIdentifiers(driver, Join(QuotedAll(driver, columns), ", ") + rest) == Some((columns, rest))
    decreases |columns|
  {
    var more := QuotedAll(driver, columns[1..]);
    assert QuotedAll(driver, columns) == [Quoted(driver, columns[0])] + more;
    assert columns == [columns[0]] + columns[1..];
    JoinCons(Quoted(driver, columns[0]), more, ", ", rest);
    if more == [] {
      ReadQuoted(driver, columns[0], rest);
      assert |columns[1..]| == 0;
      assert columns == [columns[0]];
    } else {
      var tail := Join(more, ", ") + rest;
      ReadQuoted(driver, columns[0], ", " + tail);
      AfterPrefix(", ", tail);
      IdentifiersReadBack(driver, columns[1..], rest);
    }
  }

  function Numbers(n: nat, before: nat): (r: seq<int>)
    ensures |r| == n
  {
    seq(n, i requires 0 <= i < n => before + i)
  }

  lemma {:induction false} PlaceholdersReadBack(driver: Driver, n: nat, before: nat, rest: string)
    requires driver != Other && n > 0
    requires Ends(driver, ", ", rest)
    ensures ReadPlaceholders(driver, Join(Placeholders(driver, n, before), ", ") + rest, before) == Some((Numbers(n, before), rest))
    decreases n
  {
    var more := Placeholders(driver, n - 1, before + 1);
    assert Placeholders(driver, n, before) == [Placeholder(driver, before + 1)] + more;
    assert Numbers(n, before) == [before as int] + Numbers(n - 1, before + 1);
    JoinCons(Placeholder(driver, before + 1), more, ", ", rest);
    if more == [] {
      ReadPrinted(driver, before, rest);
      assert n - 1 == 0;
      assert Numbers(n, before) == [before as int];
    } else {
      var tail := Join(more, ", ") + rest;
      ReadPrinted(driver, before, ", " + tail);
      AfterPrefix(", ", tail);
      PlaceholdersReadBack(driver, n - 1, before + 1, rest);
    }
  }

  datatype InsertParts = InsertParts(schema: string, table: string, columns: seq<string>, args: seq<int>)

  function ReadValues(driver: Driver, s: string): Option<seq<int>> {
    match After(s, ") VALUES (")
    case None => None
    case Some(values) =>
      match ReadPlaceholders(driver, values, 0)
      case None => None
      case Some(r) => if r.1 == ")" then Some(r.0) else None
  }

  function ReadColumns(driver: Driver, s: string): Option<(seq<string>, seq<int>)> {
    match After(s, " (")
    case None => None
    case Some(columns) =>
      match ReadIdentifiers(driver, columns)
      case None => None
      case Some(r) =>
        match ReadValues(driver, r.1)
        case None => None
        case Some(args) => Some((r.0, args))
  }

  function ReadInsert(driver: Driver, sql: string): Option<InsertParts> {
    match After(sql, "INSERT INTO ")
    case None => None
    case Some(s) =>
      match ReadName(driver, s)
      case None => None
      case Some(name) =>
        match ReadColumns(driver, name.1)
        case None => None
        case Some(r) => Some(InsertParts(name.0.0, name.0.1, r.0, r.1))
  }

  lemma ValuesReadBack(driver: Driver, n: nat, places: string)
    requires driver != Other && n > 0 && places == Join(Placeholders(driver, n, 0), ", ")
    ensures ReadValues(driver, ") VALUES (" + (places + ")")) == Some(Numbers(n, 0))
  {
    AfterPrefix(") VALUES (", places + ")");
    PlaceholdersReadBack(driver, n, 0, ")");
  }

  lemma ColumnsReadBack(driver: Driver, ks: seq<string>, columns: string, places: string)
    requires driver != Other && ks != []
    requires columns == Join(QuotedAll(driver, ks), ", ") && places == Join(Placeholders(driver, |ks|, 0), ", ")
    ensures ReadColumns(driver, " (" + (columns + (") VALUES (" + (places + ")")))) == Some((ks, Numbers(|ks|, 0)))
  {
    var values := ") VALUES (" + (places + ")");
    AfterPrefix(" (", columns + values);
    IdentifiersReadBack(driver, ks, values);
    ValuesReadBack(driver, |ks|, places);
  }

  /** The INSERT recovers its mutation: table, the columns in ascending order, and one
      argument per column, its own value. */
  ghost predicate InsertRecovers<V>(driver: Driver, statement: Statement<V>, mutation: Mutation<V>) {
    var read := ReadInsert(driver, statement.sql);
    && read.Some? && read.value.schema == mutation.schema && read.value.table == mutation.table
    && Lists(read.value.columns, mutation.values.Keys)
    && |read.value.columns| == |read.value.args| == |statement.args|
    && forall i :: 0 <= i < |read.value.columns| ==>
         && read.value.columns[i] in mutation.values
         && read.value.args[i] == i && statement.args[i] == mutation.values[read.value.columns[i]]
  }

  lemma InsertReadsBack(driver: Driver, schema: string, table: string, ks: seq<string>, columns: string, places: string)
    requires driver != Other && ks != []
    requires columns == Join(QuotedAll(driver, ks), ", ") && places == Join(Placeholders(driver, |ks|, 0), ", ")
    ensures ReadInsert(driver, "INSERT INTO " + TableName(driver, schema, table) + " (" + columns + ") VALUES (" + places + ")")
         == Some(InsertParts(schema, table, ks, Numbers(|ks|, 0)))
  {
    var name := TableName(driver, schema, table);
    var rest := " (" + (columns + (") VALUES (" + (places + ")")));
    assert "INSERT INTO " + name + " (" + columns + ") VALUES (" + places + ")" == "INSERT INTO " + (name + rest);
    AfterPrefix("INSERT INTO ", name + rest);
    ReadTableName(driver, schema, table, rest);
    ColumnsReadBack(driver, ks, columns, places);
  }

  lemma InsertIsRight<V>(driver: Driver, m: Mutation<V>, ks: seq<string>, columns: string, places: string, args: seq<V>)
    requires driver != Other && m.values != map[] && Lists(ks, m.values.Keys)
    requires columns == Join(QuotedAll(driver, ks), ", ") && places == Join(Placeholders(driver, |ks|, 0), ", ")
    requires args == ValuesOf(m.values, ks)
    ensures InsertRecovers(driver, Statement("INSERT INTO " + TableName(driver, m.schema, m.table) + " (" + columns
                                             + ") VALUES (" + places + ")", args), m)
  {
    ListsNonEmpty(ks, m.values);
    InsertReadsBack(driver, m.schema, m.table, ks, columns, places);
    assert forall i :: 0 <= i < |ks| ==> ks[i] in ks;
  }

  lemma OneMoreInsert<V>(driver: Driver, values: map<string, V>, columns: seq<string>, i: nat)
    requires i < |columns| && columns[i] in values && Known(values, columns[..i])
    ensures Known(values, columns[..i + 1])
    ensures QuotedAll(driver, columns[..i + 1]) == QuotedAll(driver, columns[..i]) + [Quoted(driver, columns[i])]
    ensures Placeholders(driver, i + 1, 0) == Placeholders(driver, i, 0) + [Placeholder(driver, i + 1)]
    ensures ValuesOf(values, columns[..i + 1]) == ValuesOf(values, columns[..i]) + [values[columns[i]]]
  {
    assert columns[..i + 1] == columns[..i] + [columns[i]];
    ValuesSnoc(values, columns[..i], columns[i]);
  }

  /** The loop of `BuildInsert` over the sorted columns. */
  method InsertLists<V>(driver: Driver, values: map<string, V>)
    returns (r: Result<(seq<string>, seq<string>, seq<V>), Error>, ghost keys: seq<string>)
    requires driver != Other
    ensures Lists(keys, values.Keys)
    ensures r.Ok? <==> ValidColumns(values.Keys)
    ensures r.Ok? ==> r.value == (QuotedAll(driver, keys), Placeholders(driver, |keys|, 0), ValuesOf(values, keys))
  {
    var sorted := SortedKeys(values);
    keys := sorted;
    var columns, placeholders, args: seq<V> := [], [], [];
    var i := 0;
    while i < |sorted|
      invariant 0 <= i <= |sorted|
      invariant ValidUpTo(sorted, i)
      invariant columns == QuotedAll(driver, sorted[..i])
      invariant placeholders == Placeholders(driver, i, 0)
      invariant Known(values, sorted[..i]) && args == ValuesOf(values, sorted[..i])
    {
      assert sorted[i] in sorted;
      var quoted := QuoteIdentifier(driver, sorted[i]);
      if quoted.Err? {
        return Err(quoted.error), keys;
      }
      OneMoreInsert(driver, values, sorted, i);
      columns := columns + [quoted.value];
      placeholders := placeholders + [Placeholder(driver, i + 1)];
      args := args + [values[sorted[i]]];
      i := i + 1;
    }
    assert sorted[..i] == sorted;
    r := Ok((columns, placeholders, args));
  }

  /** The rest of `BuildInsert`, once the table has its name. */
  method InsertStatement<V>(driver: Driver, mutation: Mutation<V>, tableName: string) returns (r: Result<Statement<V>, Error>)
    requires driver != Other && mutation.values != map[] && tableName == TableName(driver, mutation.schema, mutation.table)
    ensures r.Ok? <==> ValidColumns(mutation.values.Keys)
    ensures r.Ok? ==> InsertRecovers(driver, r.value, mutation)
  {
    var lists, keys := InsertLists(driver, mutation.values);
    if lists.Err? {
      return Err(lists.error);
    }
    var columns, placeholders := Join(lists.value.0, ", "), Join(lists.value.1, ", ");
    InsertIsRight(driver, mutation, keys, columns, placeholders, lists.value.2);
    return Ok(Statement("INSERT INTO " + tableName + " (" + columns + ") VALUES (" + placeholders + ")", lists.value.2));
  }

  /** `BuildInsert` succeeds exactly on a value and valid names; its text recovers the
      mutation. */
  method BuildInsert<V>(driver: Driver, mutation: Mutation<V>) returns (r: Result<Statement<V>, Error>)
    ensures mutation.values == map[] ==> r == Err(ValuesRequired)
    ensures r.Ok? <==> mutation.values != map[] && ValidTable(driver, mutation.schema, mutation.table)
                       && ValidColumns(mutation.values.Keys)
    ensures r.Ok? ==> InsertRecovers(driver, r.value, mutation)
  {
    if mutation.values == map[] {
      return Err(ValuesRequired);
    }
    var tableName := QualifiedName(driver, mutation.schema, mutation.table);
    if tableName.Err? {
      return Err(tableName.error);
    }
    r := InsertStatement(driver, mutation, tableName.value);
  }
}
