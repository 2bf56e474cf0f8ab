/** Counting tables kept up to date by increments: `INSERT ... ON CONFLICT DO UPDATE SET
    count = count + EXCLUDED.count, error_count = error_count + EXCLUDED.error_count`. */
module Tally {
  import opened Wrappers

  datatype Count = Count(total: int, errors: int)

  /** What one row contributes, and to which key. */
  datatype Hit<K> = Hit(key: K, error: bool)

  function TotalAt<K>(table: map<K, Count>, key: K): int {
    if key in table then table[key].total else 0
  }

  function ErrorsAt<K>(table: map<K, Count>, key: K): int {
    if key in table then table[key].errors else 0
  }

  function Bump<K>(table: map<K, Count>, key: K, total: int, errors: int): map<K, Count> {
    table[key := Count(TotalAt(table, key) + total, ErrorsAt(table, key) + errors)]
  }

  function Add<K>(table: map<K, Count>, hit: Option<Hit<K>>): map<K, Count> {
    match hit
    case None => table
    case Some(h) => Bump(table, h.key, 1, if h.error then 1 else 0)
  }

  /** Rows added one by one. */
  function Fold<K>(table: map<K, Count>, hits: seq<Option<Hit<K>>>): map<K, Count>
    decreases |hits|
  {
    if hits == [] then table else Fold(Add(table, hits[0]), hits[1..])
  }

  predicate HitsKey<K(==)>(hit: Option<Hit<K>>, key: K) {
    hit.Some? && hit.value.key == key
  }

  /** The rows that hit a key, counted from scratch. */
  function Total<K(==)>(hits: seq<Option<Hit<K>>>, key: K): int {
    if hits == [] then 0
    else (if HitsKey(hits[0], key) then 1 else 0) + Total(hits[1..], key)
  }

  /** The errors among them. */
  function Errors<K(==)>(hits: seq<Option<Hit<K>>>, key: K): int {
    if hits == [] then 0
    else (if HitsKey(hits[0], key) && hits[0].value.error then 1 else 0) + Errors(hits[1..], key)
  }

  lemma {:induction false} TotalAppend<K>(a: seq<Option<Hit<K>>>, b: seq<Option<Hit<K>>>, key: K)
    ensures Total(a + b, key) == Total(a, key) + Total(b, key)
    ensures Errors(a + b, key) == Errors(a, key) + Errors(b, key)
  {
    if a == [] {
      assert a + b == b;
    } else {
      assert (a + b)[1..] == a[1..] + b;
      TotalAppend(a[1..], b, key);
    }
  }

  lemma {:induction false} CountBounds<K>(hits: seq<Option<Hit<K>>>, key: K)
    ensures 0 <= Errors(hits, key) <= Total(hits, key) <= |hits|
  {
    if hits != [] {
      CountBounds(hits[1..], key);
    }
  }

  lemma AddAt<K>(table: map<K, Count>, hit: Option<Hit<K>>, key: K)
    ensures var d := if HitsKey(hit, key) then 1 else 0;
            TotalAt(Add(table, hit), key) == TotalAt(table, key) + d
    ensures var d := if HitsKey(hit, key) && hit.value.error then 1 else 0;
            ErrorsAt(Add(table, hit), key) == ErrorsAt(table, key) + d
    ensures key in Add(table, hit) <==> key in table || HitsKey(hit, key)
  {
  }

  /** Adding rows one by one is adding their counts. */
  lemma {:induction false} FoldAt<K>(table: map<K, Count>, hits: seq<Option<Hit<K>>>, key: K)
    ensures TotalAt(Fold(table, hits), key) == TotalAt(table, key) + Total(hits, key)
    ensures ErrorsAt(Fold(table, hits), key) == ErrorsAt(table, key) + Errors(hits, key)
    ensures key in Fold(table, hits) <==> key in table || Total(hits, key) > 0
    decreases |hits|
  {
    if hits != [] {
      AddAt(table, hits[0], key);
      CountBounds(hits[1..], key);
      FoldAt(Add(table, hits[0]), hits[1..], key);
    }
  }

  lemma {:induction false} FoldSnoc<K>(table: map<K, Count>, hits: seq<Option<Hit<K>>>, hit: Option<Hit<K>>)
    ensures Fold(table, hits + [hit]) == Add(Fold(table, hits), hit)
    decreases |hits|
  {
    if hits == [] {
      assert hits + [hit] == [hit];
      assert [hit][1..] == [];
    } else {
      assert (hits + [hit])[1..] == hits[1..] + [hit];
      FoldSnoc(Add(table, hits[0]), hits[1..], hit);
    }
  }

  /** What one key of the table must hold after the deltas of the keys in `done` are written. */
  ghost predicate Written<K>(before: map<K, Count>, after: map<K, Count>, deltas: map<K, Count>, done: set<K>, key: K) {
    && (key in after <==> key in before || key in done)
    && TotalAt(after, key) == TotalAt(before, key) + (if key in done then TotalAt(deltas, key) else 0)
    && ErrorsAt(after, key) == ErrorsAt(before, key) + (if key in done then ErrorsAt(deltas, key) else 0)
  }

  /** Rows gathered per key first and written as one delta per key, in any order of the
      keys, leave the same table as rows written one by one. */
  lemma DeltasAreFold<K(!new)>(before: map<K, Count>, after: map<K, Count>, deltas: map<K, Count>, hits: seq<Option<Hit<K>>>)
    requires deltas == Fold(map[], hits)
    requires forall key :: Written(before, after, deltas, deltas.Keys, key)
    ensures after == Fold(before, hits)
  {
    var fold := Fold(before, hits);
    forall key: K
      ensures key in fold <==> key in after
      ensures key in fold ==> fold[key] == after[key]
    {
      assert Written(before, after, deltas, deltas.Keys, key);
      FoldAt(before, hits, key);
      FoldAt(map[], hits, key);
      assert TotalAt(fold, key) == TotalAt(after, key) && ErrorsAt(fold, key) == ErrorsAt(after, key);
    }
  }
}
