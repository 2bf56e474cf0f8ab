/** Open database transactions, api/internal/query/transaction.go. */
module Transactions {
  import opened Wrappers
  import opened Handles

  datatype Ending = Committed | RolledBack

  ghost predicate SameCommits(a: multiset<(nat, Ending)>, b: multiset<(nat, Ending)>) {
    forall tx :: a[(tx, Committed)] == b[(tx, Committed)]
  }

  /** How often the transaction was committed or rolled back. */
  function Endings(ends: multiset<(nat, Ending)>, tx: nat): nat {
    ends[(tx, Committed)] + ends[(tx, RolledBack)]
  }

  lemma OneMoreEnding(ends: multiset<(nat, Ending)>, ended: multiset<nat>, tx: nat, how: Ending)
    requires forall t {:trigger Endings(ends, t)} :: ended[t] == Endings(ends, t)
    ensures var more := ends + multiset{(tx, how)};
            forall t {:trigger Endings(more, t)} :: (ended + multiset{tx})[t] == Endings(more, t)
  {
    forall t
      ensures (ended + multiset{tx})[t] == Endings(ends + multiset{(tx, how)}, t)
    {
      assert ended[t] == Endings(ends, t);
    }
  }

  /** A transaction is known by a number; `ends` records each of its commits and rollbacks.
      `take` hands it to one caller, who ends it after the lock is released. */
  class TransactionService {
    const idle: int
    var scopes: map<string, string>
    var live: map<string, Entry<nat>>
    var ends: multiset<(nat, Ending)>
    ghost var taken: set<nat>
    ghost var ended: multiset<nat>
    ghost var given: set<nat>

    ghost function View(): Pool<string, nat>
      reads this
    {
      Pool(live, taken, ended, given)
    }

    /** Every item has a scope, and a transaction was ended as often as it was committed or
        rolled back. */
    ghost predicate Valid()
      reads this
    {
      && scopes.Keys == live.Keys
      && forall tx {:trigger Endings(ends, tx)} :: ended[tx] == Endings(ends, tx)
    }

    constructor (idle: int)
      ensures this.idle == idle && View() == Pool(map[], {}, multiset{}, {}) && ends == multiset{} && Valid()
    {
      this.idle := idle;
      scopes, live, ends := map[], map[], multiset{};
      taken, ended, given := {}, multiset{}, {};
    }

    method Begin(scope: string, tx: nat, id: string, now: int)
      requires Valid() && id !in live
      modifies this
      ensures Valid() && View() == Put(old(View()), id, tx, now) && ends == old(ends)
      ensures scopes == old(scopes)[id := scope]
    {
      scopes := scopes[id := scope];
      live := live[id := Entry(tx, now)];
      given := given + {tx};
    }

    method Get(scope: string, id: string, now: int) returns (r: Option<nat>)
      requires Valid()
      modifies this
      ensures Valid() && scopes == old(scopes) && ends == old(ends)
      ensures r.Some? <==> id in old(live) && old(scopes)[id] == scope
      ensures r.Some? ==> r.value == old(live)[id].handle && View() == Touch(old(View()), id, now)
      ensures r.None? ==> View() == old(View())
    {
      if id !in live || scopes[id] != scope {
        return None;
      }
      live := live[id := Entry(live[id].handle, now)];
      return Some(live[id].handle);
    }

    /** `take`: of all callers for one id, one gets the transaction. */
    method TakeOut(scope: string, id: string) returns (r: Option<nat>)
      requires Valid()
      modifies this
      ensures Valid() && ends == old(ends)
      ensures r.Some? <==> id in old(live) && old(scopes)[id] == scope
      ensures r.Some? ==> r.value == old(live)[id].handle && View() == Take(old(View()), id)
      ensures r.None? ==> View() == old(View()) && scopes == old(scopes)
    {
      if id !in live || scopes[id] != scope {
        return None;
      }
      var tx := live[id].handle;
      live := live - {id};
      scopes := scopes - {id};
      taken := taken + {tx};
      return Some(tx);
    }

    /** `item.tx.Commit()` or `item.tx.Rollback()` by the taker. */
    method Finish(tx: nat, how: Ending)
      requires Valid()
      modifies this
      ensures Valid() && scopes == old(scopes) && View() == End(old(View()), tx)
      ensures ends == old(ends) + multiset{(tx, how)}
    {
      OneMoreEnding(ends, ended, tx, how);
      ends := ends + multiset{(tx, how)};
      taken := taken - {tx};
      ended := ended + multiset{tx};
    }

    /** `Commit` or `Rollback`: take, then end. */
    method CommitOrRollback(scope: string, id: string, how: Ending) returns (found: bool)
      requires Valid()
      modifies this
      ensures Valid() && found == (id in old(live) && old(scopes)[id] == scope)
      ensures !found ==> View() == old(View()) && ends == old(ends)
      ensures found ==> View() == End(Take(old(View()), id), old(live)[id].handle)
                        && ends == old(ends) + multiset{(old(live)[id].handle, how)}
    {
      var item := TakeOut(scope, id);
      if item.None? {
        return false;
      }
      Finish(item.value, how);
      return true;
    }

    /** The sweep's loop, over the keys in any order. */
    method SweepAll(cutoff: int) returns (count: nat, ghost order: seq<string>)
      requires Valid()
      modifies this
      ensures Valid() && View() == SweptInOrder(old(View()), cutoff, order)
      ensures forall k :: k in order <==> k in old(live)
      ensures count + |live| == |old(live)|
      ensures SameCommits(ends, old(ends))
    {
      order := [];
      var todo := live.Keys;
      count := 0;
      while todo != {}
        invariant Valid() && todo <= live.Keys
        invariant forall k :: k in old(live) <==> k in order || k in todo
        invariant View() == SweptInOrder(old(View()), cutoff, order)
        invariant count + |live| == |old(live)|
        invariant SameCommits(ends, old(ends))
        decreases |todo|
      {
        var k :| k in todo;
        todo := todo - {k};
        assert (order + [k])[..|order|] == order;
        order := order + [k];
        if Idle(live[k], cutoff) {
          RollbackItem(k);
          count := count + 1;
        }
      }
    }

    method CloseIdle(now: int) returns (count: nat)
      requires Valid() && Distinct(View())
      modifies this
      ensures View() == Sweep(old(View()), now - idle)
      ensures Valid() && SameCommits(ends, old(ends)) && count + |live| == |old(live)|
    {
      ghost var was := View();
      ghost var order;
      count, order := SweepAll(now - idle);
      AnyOrderSweeps(was, now - idle, order, View());
    }

    method RollbackItem(id: string)
      requires Valid() && id in live
      modifies this
      ensures Valid() && View() == Close(old(View()), id)
      ensures SameCommits(ends, old(ends))
    {
      var tx := live[id].handle;
      OneMoreEnding(ends, ended, tx, RolledBack);
      ends := ends + multiset{(tx, RolledBack)};
      ended := ended + multiset{tx};
      live := live - {id};
      scopes := scopes - {id};
    }
  }

  // ---------------------------------------------------------------- interleaved callers

  /** The atomic steps: each is one hold of the lock, and `End` is the taker's. */
  datatype Step =
    | BeginStep(tx: nat, id: string, now: int)
    | GetStep(id: string, now: int)
    | TakeStep(id: string)
    | EndStep(tx: nat)
    | SweepStep(now: int)

  ghost predicate Enabled(p: Pool<string, nat>, step: Step) {
    match step
    case BeginStep(tx, id, now) => id !in p.live && tx !in p.given
    case TakeStep(id) => id in p.live
    case EndStep(tx) => tx in p.taken
    case _ => true
  }

  ghost function Next(idle: int, p: Pool<string, nat>, step: Step): Pool<string, nat>
    requires Enabled(p, step)
  {
    match step
    case BeginStep(tx, id, now) => Put(p, id, tx, now)
    case GetStep(id, now) => Touch(p, id, now)
    case TakeStep(id) => Take(p, id)
    case EndStep(tx) => End(p, tx)
    case SweepStep(now) => Sweep(p, now - idle)
  }

  lemma StepKeeps(idle: int, p: Pool<string, nat>, step: Step)
    requires Inv(p) && Enabled(p, step)
    ensures Inv(Next(idle, p, step))
  {
    match step
    case BeginStep(tx, id, now) => PutKeeps(p, id, tx, now);
    case GetStep(id, now) => TouchKeeps(p, id, now);
    case TakeStep(id) => TakeKeeps(p, id);
    case EndStep(tx) => EndKeeps(p, tx);
    case SweepStep(now) => SweepKeeps(p, now - idle);
  }

  ghost predicate CanRun(idle: int, p: Pool<string, nat>, steps: seq<Step>)
    decreases |steps|
  {
    steps == [] || (Enabled(p, steps[0]) && CanRun(idle, Next(idle, p, steps[0]), steps[1..]))
  }

  ghost function After(idle: int, p: Pool<string, nat>, steps: seq<Step>): Pool<string, nat>
    requires CanRun(idle, p, steps)
    decreases |steps|
  {
    if steps == [] then p else After(idle, Next(idle, p, steps[0]), steps[1..])
  }

  lemma {:induction false} RunKeeps(idle: int, p: Pool<string, nat>, steps: seq<Step>)
    requires Inv(p) && CanRun(idle, p, steps)
    ensures Inv(After(idle, p, steps))
    decreases |steps|
  {
    if steps != [] {
      StepKeeps(idle, p, steps[0]);
      RunKeeps(idle, Next(idle, p, steps[0]), steps[1..]);
    }
  }

  /** At every point of any interleaving each transaction begun is open and held by one entry,
      open in the hands of its one taker, or committed or rolled back exactly once. */
  lemma EveryTransactionEndsOnce(idle: int, p: Pool<string, nat>, steps: seq<Step>, tx: nat)
    requires Inv(p) && CanRun(idle, p, steps)
    ensures var q := After(idle, p, steps);
            && (tx in q.given && !Held(q, tx) && tx !in q.taken ==> q.ended[tx] == 1)
            && (tx !in q.given || Held(q, tx) || tx in q.taken ==> q.ended[tx] == 0)
            && !(Held(q, tx) && tx in q.taken)
            && forall j, k :: HeldAt(q, j, tx) && HeldAt(q, k, tx) ==> j == k
  {
    RunKeeps(idle, p, steps);
    assert Placed(After(idle, p, steps), tx);
  }

  lemma NoTransactionsIsRight()
    ensures Inv(Pool<string, nat>.Pool(map[], {}, multiset{}, {}))
  {
  }

  /** A transaction used at `then_` survives a sweep at `now` exactly when the time between is
      shorter than the idle limit. */
  lemma UsedTransactionsSurviveExactly(idle: int, p: Pool<string, nat>, id: string, then_: int, now: int)
    requires Inv(p) && id in p.live
    ensures id in Next(idle, Next(idle, p, GetStep(id, then_)), SweepStep(now)).live <==> now - then_ < idle
  {
    TouchKeeps(p, id, then_);
    SweptOrKept(Touch(p, id, then_), now - idle, id);
  }
}
