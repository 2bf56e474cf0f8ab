/** Database handles of browser sessions, api/internal/session/store.go. */
module SessionStore {
  import opened Wrappers
  import opened Handles

  /** The nested Go maps are one map on pairs of session and connection. A handle is known by
      a number, and `closed` records each call of its `Close`. New ids are parameters: the
      loops that draw them end with one that is not there. */
  class Store {
    const idle: int
    var sessions: set<string>
    var live: map<(string, string), Entry<nat>>
    var closed: multiset<nat>
    ghost var given: set<nat>

    ghost function View(): Pool<(string, string), nat>
      reads this
    {
      Pool(live, {}, closed, given)
    }

    ghost predicate Valid()
      reads this
    {
      forall k :: k in live ==> k.0 in sessions
    }

    constructor (idle: int)
      ensures this.idle == idle && sessions == {} && View() == Pool(map[], {}, multiset{}, {}) && Valid()
    {
      this.idle := idle;
      sessions, live, closed, given := {}, map[], multiset{}, {};
    }

    method CreateSession(id: string)
      requires Valid() && id !in sessions
      modifies this`sessions
      ensures Valid() && sessions == old(sessions) + {id}
      ensures forall k :: k in live ==> k.0 != id
    {
      sessions := sessions + {id};
    }

    /** `PutHandle`. An unknown session gets the empty id: the handle is neither kept nor closed. */
    method PutHandle(session: string, handle: nat, id: string, now: int) returns (r: string)
      requires Valid() && (session, id) !in live
      modifies this
      ensures Valid() && sessions == old(sessions)
      ensures session in sessions ==> r == id && View() == Put(old(View()), (session, id), handle, now)
      ensures session !in sessions ==> r == "" && View() == old(View())
    {
      if session !in sessions {
        return "";
      }
      live := live[(session, id) := Entry(handle, now)];
      given := given + {handle};
      return id;
    }

    method GetHandle(session: string, connection: string, now: int) returns (r: Option<nat>)
      requires Valid()
      modifies this
      ensures Valid() && sessions == old(sessions) && View() == Touch(old(View()), (session, connection), now)
      ensures r == if (session, connection) in old(live) then Some(old(live)[(session, connection)].handle) else None
    {
      if (session, connection) !in live {
        return None;
      }
      var entry := live[(session, connection)];
      live := live[(session, connection) := Entry(entry.handle, now)];
      return Some(entry.handle);
    }

    /** `ReplaceHandle`. Without the connection the new handle is left to the caller. */
    method ReplaceHandle(session: string, connection: string, handle: nat, now: int) returns (ok: bool)
      requires Valid()
      modifies this
      ensures Valid() && sessions == old(sessions) && ok == ((session, connection) in old(live))
      ensures View() == if ok then Replace(old(View()), (session, connection), handle, now) else old(View())
    {
      if (session, connection) !in live {
        return false;
      }
      closed := closed + multiset{live[(session, connection)].handle};
      live := live[(session, connection) := Entry(handle, now)];
      given := given + {handle};
      return true;
    }

    method Delete(session: string, connection: string)
      requires Valid()
      modifies this
      ensures Valid() && sessions == old(sessions) && View() == Close(old(View()), (session, connection))
      ensures live == old(live) - {(session, connection)}
    {
      if (session, connection) in live {
        closed := closed + multiset{live[(session, connection)].handle};
      }
      live := live - {(session, connection)};
    }

    /** The sweep's loop, over the keys in any order. */
    method SweepAll(cutoff: int) returns (count: nat, ghost order: seq<(string, string)>)
      requires Valid()
      modifies this
      ensures Valid() && View() == SweptInOrder(old(View()), cutoff, order)
      ensures forall k :: k in order <==> k in old(live)
      ensures count + |live| == |old(live)|
      ensures sessions == old(sessions)
    {
      order := [];
      var todo := live.Keys;
      count := 0;
      while todo != {}
        invariant Valid() && todo <= live.Keys
        invariant forall k :: k in old(live) <==> k in order || k in todo
        invariant View() == SweptInOrder(old(View()), cutoff, order)
        invariant count + |live| == |old(live)|
        invariant sessions == old(sessions)
        decreases |todo|
      {
        var k :| k in todo;
        todo := todo - {k};
        assert (order + [k])[..|order|] == order;
        order := order + [k];
        if Idle(live[k], cutoff) {
          Delete(k.0, k.1);
          count := count + 1;
        }
      }
    }

    /** `CloseIdle`: the entries in any order, each idle one closed and removed. */
    method CloseIdle(now: int) returns (count: nat)
      requires Valid() && Distinct(View())
      modifies this
      ensures count == |old(live)| - |live|
      ensures Valid() && sessions == old(sessions)
      ensures View() == Sweep(old(View()), now - idle)
    {
      ghost var was := View();
      ghost var order;
      count, order := SweepAll(now - idle);
      AnyOrderSweeps(was, now - idle, order, View());
    }
  }

  // ---------------------------------------------------------------- runs

  datatype Step =
    | PutStep(session: string, handle: nat, id: string, now: int)
    | GetStep(session: string, connection: string, now: int)
    | ReplaceStep(session: string, connection: string, handle: nat, now: int)
    | DeleteStep(session: string, connection: string)
    | SweepStep(now: int)

  /** The handle and the id are new; the session of a put is known. */
  ghost predicate Proper(p: Pool<(string, string), nat>, step: Step) {
    match step
    case PutStep(session, handle, id, now) => (session, id) !in p.live && handle !in p.given
    case ReplaceStep(session, connection, handle, now) => handle !in p.given
    case _ => true
  }

  ghost function Next(idle: int, p: Pool<(string, string), nat>, step: Step): Pool<(string, string), nat> {
    match step
    case PutStep(session, handle, id, now) => Put(p, (session, id), handle, now)
    case GetStep(session, connection, now) => Touch(p, (session, connection), now)
    case ReplaceStep(session, connection, handle, now) =>
      if (session, connection) in p.live then Replace(p, (session, connection), handle, now) else p
    case DeleteStep(session, connection) => Close(p, (session, connection))
    case SweepStep(now) => Sweep(p, now - idle)
  }

  lemma StepKeeps(idle: int, p: Pool<(string, string), nat>, step: Step)
    requires Inv(p) && Proper(p, step)
    ensures Inv(Next(idle, p, step))
  {
    match step
    case PutStep(session, handle, id, now) => PutKeeps(p, (session, id), handle, now);
    case GetStep(session, connection, now) => TouchKeeps(p, (session, connection), now);
    case ReplaceStep(session, connection, handle, now) =>
      if (session, connection) in p.live {
        ReplaceKeeps(p, (session, connection), handle, now);
      }
    case DeleteStep(session, connection) => CloseKeeps(p, (session, connection));
    case SweepStep(now) => SweepKeeps(p, now - idle);
  }

  ghost function After(idle: int, p: Pool<(string, string), nat>, steps: seq<Step>): Pool<(string, string), nat>
    decreases |steps|
  {
    if steps == [] then p else After(idle, Next(idle, p, steps[0]), steps[1..])
  }

  ghost predicate AllProper(idle: int, p: Pool<(string, string), nat>, steps: seq<Step>)
    decreases |steps|
  {
    steps == [] || (Proper(p, steps[0]) && AllProper(idle, Next(idle, p, steps[0]), steps[1..]))
  }

  lemma {:induction false} RunKeeps(idle: int, p: Pool<(string, string), nat>, steps: seq<Step>)
    requires Inv(p) && p.taken == {} && AllProper(idle, p, steps)
    ensures Inv(After(idle, p, steps)) && After(idle, p, steps).taken == {}
    decreases |steps|
  {
    if steps != [] {
      StepKeeps(idle, p, steps[0]);
      RunKeeps(idle, Next(idle, p, steps[0]), steps[1..]);
    }
  }

  /** At every point of any run each handle accepted is open and held by exactly one entry, or
      removed and closed exactly once, and no handle that was not accepted is touched. */
  lemma EveryHandleInItsPlace(idle: int, p: Pool<(string, string), nat>, steps: seq<Step>, handle: nat)
    requires Inv(p) && p.taken == {} && AllProper(idle, p, steps)
    ensures var q := After(idle, p, steps);
            && (handle in q.given ==> (Held(q, handle) && q.ended[handle] == 0) || (!Held(q, handle) && q.ended[handle] == 1))
            && (handle !in q.given ==> !Held(q, handle) && q.ended[handle] == 0)
            && forall j, k :: HeldAt(q, j, handle) && HeldAt(q, k, handle) ==> j == k
  {
    RunKeeps(idle, p, steps);
    assert Placed(After(idle, p, steps), handle);
  }

  lemma EmptyPoolIsRight()
    ensures var p: Pool<(string, string), nat> := Pool(map[], {}, multiset{}, {});
            Inv(p) && p.taken == {}
  {
  }

  /** A handle used at `then` survives a sweep at `now` exactly when the time between is
      shorter than the idle limit. */
  lemma UsedHandlesSurviveExactly(idle: int, p: Pool<(string, string), nat>, session: string, connection: string, then_: int, now: int)
    requires Inv(p) && (session, connection) in p.live
    ensures var q := Next(idle, Next(idle, p, GetStep(session, connection, then_)), SweepStep(now));
            (session, connection) in q.live <==> now - then_ < idle
  {
    var touched := Touch(p, (session, connection), then_);
    TouchKeeps(p, (session, connection), then_);
    SweptOrKept(touched, now - idle, (session, connection));
  }
}
