/** What saving a draft does to the table, and when it gives what was displayed:
    `applyDraft` of web/src/features/table/TableView.tsx. */
module TableSave {
  import opened Wrappers
  import opened TableDraft

  datatype Mutation = Delete(key: Record) | Update(key: Record, values: Record) | Insert(values: Record)

  // ---------------------------------------------------------------- the table

  /** SQL equality: a null matches nothing. */
  predicate Matches(record: Record, key: Record) {
    forall name :: name in key ==> name in record && record[name] == key[name] && key[name] != Null
  }

  function Count(table: seq<Record>, key: Record): nat {
    if table == [] then 0 else (if Matches(table[0], key) then 1 else 0) + Count(table[1..], key)
  }

  function Without(table: seq<Record>, key: Record): seq<Record> {
    if table == [] then [] else (if Matches(table[0], key) then [] else [table[0]]) + Without(table[1..], key)
  }

  function Updated(table: seq<Record>, key: Record, values: Record): seq<Record> {
    if table == [] then []
    else [if Matches(table[0], key) then table[0] + values else table[0]] + Updated(table[1..], key, values)
  }

  /** A mutation that does not affect exactly one row is refused and leaves no trace. */
  function Perform(table: seq<Record>, m: Mutation): Option<seq<Record>> {
    match m
    case Delete(key) => if Count(table, key) == 1 then Some(Without(table, key)) else None
    case Update(key, values) => if Count(table, key) == 1 then Some(Updated(table, key, values)) else None
    case Insert(values) => Some(table + [values])
  }

  /** The table after the mutations up to the first one refused, and whether none was. */
  function Run(table: seq<Record>, ms: seq<Mutation>): (seq<Record>, bool)
    decreases |ms|
  {
    if ms == [] then (table, true)
    else
      match Perform(table, ms[0])
      case None => (table, false)
      case Some(next) => Run(next, ms[1..])
  }

  lemma {:induction false} RunAppend(table: seq<Record>, a: seq<Mutation>, b: seq<Mutation>)
    ensures Run(table, a + b) == if Run(table, a).1 then Run(Run(table, a).0, b) else Run(table, a)
    decreases |a|
  {
    if a == [] {
      assert a + b == b;
    } else {
      assert (a + b)[1..] == a[1..] + b;
      var next := Perform(table, a[0]);
      if next.Some? {
        RunAppend(next.value, a[1..], b);
      }
    }
  }

  lemma RunOne(table: seq<Record>, m: Mutation)
    ensures Run(table, [m]) == match Perform(table, m) case None => (table, false) case Some(next) => (next, true)
  {
    assert [m][1..] == [];
  }

  class Server {
    var table: seq<Record>

    constructor (rows: seq<Record>)
      ensures table == rows
    {
      table := rows;
    }

    method Mutate(m: Mutation) returns (ok: bool)
      modifies this
      ensures (table, ok) == Run(old(table), [m])
    {
      RunOne(table, m);
      match m {
        case Delete(key) =>
          ok := Count(table, key) == 1;
          if ok {
            table := Without(table, key);
          }
        case Update(key, values) =>
          ok := Count(table, key) == 1;
          if ok {
            table := Updated(table, key, values);
          }
        case Insert(values) =>
          ok := true;
          table := table + [values];
      }
    }
  }

  // ---------------------------------------------------------------- what is sent

  function Deletes(view: View, deleted: seq<nat>, n: nat): seq<Mutation>
    requires WellFormed(view) && n <= |deleted| && forall i :: 0 <= i < |deleted| ==> deleted[i] < |view.rows|
  {
    if n == 0 then []
    else Deletes(view, deleted, n - 1) + [Mutation.Delete(BuildRowKey(view.columns, view.rows[deleted[n - 1]], view.uniqueKey))]
  }

  /** The update of row `i`, if it is edited and a column it may send differs. */
  function RowUpdate(view: View, edits: map<nat, Record>, i: nat): seq<Mutation>
    requires WellFormed(view) && i < |view.rows|
  {
    if i !in edits || Changed(view, view.rows[i], edits[i], view.uniqueKey) == map[] then []
    else [Update(BuildRowKey(view.columns, view.rows[i], view.uniqueKey), Changed(view, view.rows[i], edits[i], view.uniqueKey))]
  }

  function Updates(view: View, edits: map<nat, Record>, n: nat): seq<Mutation>
    requires WellFormed(view) && n <= |view.rows|
  {
    if n == 0 then [] else Updates(view, edits, n - 1) + RowUpdate(view, edits, n - 1)
  }

  function Inserts(view: View, newRows: seq<Record>, n: nat): seq<Mutation>
    requires n <= |newRows|
  {
    if n == 0 then [] else Inserts(view, newRows, n - 1) + [Insert(BuildInsertValues(view, newRows[n - 1]))]
  }

  /** Row indexes of the draft are rows of the view. */
  predicate InRange(view: View, draft: Draft) {
    && (forall i :: 0 <= i < |draft.deletedRowIndexes| ==> draft.deletedRowIndexes[i] < |view.rows|)
    && forall i :: i in draft.editedRows ==> i < |view.rows|
  }

  function Mutations(view: View, draft: Draft): seq<Mutation>
    requires WellFormed(view) && InRange(view, draft)
  {
    Deletes(view, draft.deletedRowIndexes, |draft.deletedRowIndexes|)
    + Updates(view, draft.editedRows, |view.rows|)
    + Inserts(view, draft.newRows, |draft.newRows|)
  }

  predicate Editable(view: View) {
    view.uniqueKey != []
    && forall k :: 0 <= k < |view.uniqueKey| ==> FindIndex(view.columns, view.uniqueKey[k]) != -1
  }

  /** `hasEffectiveDraftChanges`. */
  predicate Dirty(view: View, draft: Option<Draft>)
    requires WellFormed(view)
  {
    draft.Some? && Compacted(view, draft.value).Some?
  }

  function Sent(view: View, draft: Option<Draft>): seq<Mutation>
    requires WellFormed(view) && (draft.Some? ==> InRange(view, draft.value))
  {
    if Editable(view) && Dirty(view, draft) then Mutations(view, draft.value) else []
  }

  /** `applyDraft`: deletes, then updates by row, then inserts, stopping at a refusal. A dirty
      draft goes away when all went through, whatever was sent. */
  method ApplyDraft(view: View, draft: Option<Draft>, server: Server) returns (left: Option<Draft>, ok: bool)
    requires WellFormed(view) && DistinctNames(view.columns) && (draft.Some? ==> InRange(view, draft.value))
    modifies server
    ensures (server.table, ok) == Run(old(server.table), Sent(view, draft))
    ensures left == if Editable(view) && Dirty(view, draft) && ok then None else draft
  {
    if !Editable(view) || draft.None? {
      return draft, true;
    }
    var compacted := CompactDraft(view, draft.value);
    if compacted.None? {
      return draft, true;
    }
    ok := SendDeletes(view, draft.value.deletedRowIndexes, server);
    label deleted:
    if ok {
      ok := SendUpdates(view, draft.value.editedRows, server);
    }
    if ok {
      ok := SendInserts(view, draft.value.newRows, server);
    }
    ghost var start := old(server.table);
    ghost var deletes := Deletes(view, draft.value.deletedRowIndexes, |draft.value.deletedRowIndexes|);
    ghost var updates := Updates(view, draft.value.editedRows, |view.rows|);
    ghost var inserts := Inserts(view, draft.value.newRows, |draft.value.newRows|);
    RunAppend(start, deletes + updates, inserts);
    RunAppend(start, deletes, updates);
    left := if ok then None else draft;
  }

  method SendDeletes(view: View, deleted: seq<nat>, server: Server) returns (ok: bool)
    requires WellFormed(view) && forall i :: 0 <= i < |deleted| ==> deleted[i] < |view.rows|
    modifies server
    ensures (server.table, ok) == Run(old(server.table), Deletes(view, deleted, |deleted|))
  {
    ok := true;
    var i := 0;
    while i < |deleted| && ok
      invariant 0 <= i <= |deleted|
      invariant (server.table, ok) == Run(old(server.table), Deletes(view, deleted, i))
    {
      var m := Mutation.Delete(BuildRowKey(view.columns, view.rows[deleted[i]], view.uniqueKey));
      RunAppend(old(server.table), Deletes(view, deleted, i), [m]);
      ok := server.Mutate(m);
      i := i + 1;
    }
    if i < |deleted| {
      var rest := DeletesSplit(view, deleted, i, |deleted|);
      RunAppend(old(server.table), Deletes(view, deleted, i), rest);
    }
  }

  lemma {:induction false} DeletesSplit(view: View, deleted: seq<nat>, i: nat, n: nat) returns (rest: seq<Mutation>)
    requires WellFormed(view) && forall k :: 0 <= k < |deleted| ==> deleted[k] < |view.rows|
    requires i <= n <= |deleted|
    ensures Deletes(view, deleted, n) == Deletes(view, deleted, i) + rest
    decreases n
  {
    rest := [];
    if i < n {
      rest := DeletesSplit(view, deleted, i, n - 1);
      rest := rest + [Mutation.Delete(BuildRowKey(view.columns, view.rows[deleted[n - 1]], view.uniqueKey))];
    }
  }

  method SendUpdates(view: View, edits: map<nat, Record>, server: Server) returns (ok: bool)
    requires WellFormed(view) && DistinctNames(view.columns)
    modifies server
    ensures (server.table, ok) == Run(old(server.table), Updates(view, edits, |view.rows|))
  {
    ok := true;
    var i := 0;
    while i < |view.rows| && ok
      invariant 0 <= i <= |view.rows|
      invariant (server.table, ok) == Run(old(server.table), Updates(view, edits, i))
    {
      RunAppend(old(server.table), Updates(view, edits, i), RowUpdate(view, edits, i));
      ok := SendUpdate(view, edits, i, server);
      i := i + 1;
    }
    if i < |view.rows| {
      var rest := UpdatesSplit(view, edits, i, |view.rows|);
      RunAppend(old(server.table), Updates(view, edits, i), rest);
    }
  }

  method SendUpdate(view: View, edits: map<nat, Record>, i: nat, server: Server) returns (ok: bool)
    requires WellFormed(view) && DistinctNames(view.columns) && i < |view.rows|
    modifies server
    ensures (server.table, ok) == Run(old(server.table), RowUpdate(view, edits, i))
  {
    if i !in edits {
      return true;
    }
    var payload := BuildRowUpdate(view, view.rows[i], edits[i], view.uniqueKey);
    if payload.None? {
      return true;
    }
    ok := server.Mutate(Update(payload.value.0, payload.value.1));
  }

  lemma {:induction false} UpdatesSplit(view: View, edits: map<nat, Record>, i: nat, n: nat) returns (rest: seq<Mutation>)
    requires WellFormed(view) && i <= n <= |view.rows|
    ensures Updates(view, edits, n) == Updates(view, edits, i) + rest
    decreases n
  {
    rest := [];
    if i < n {
      rest := UpdatesSplit(view, edits, i, n - 1);
      rest := rest + RowUpdate(view, edits, n - 1);
    }
  }

  method SendInserts(view: View, newRows: seq<Record>, server: Server) returns (ok: bool)
    modifies server
    ensures (server.table, ok) == Run(old(server.table), Inserts(view, newRows, |newRows|))
  {
    ok := true;
    for i := 0 to |newRows|
      invariant ok && (server.table, true) == Run(old(server.table), Inserts(view, newRows, i))
    {
      var m := Insert(BuildInsertValues(view, newRows[i]));
      RunAppend(old(server.table), Inserts(view, newRows, i), [m]);
      ok := server.Mutate(m);
    }
  }
}
