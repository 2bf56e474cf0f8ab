/** Resources kept in a table until they are ended, once: what api/internal/session/store.go
    and api/internal/query/transaction.go have in common. */
module Handles {
  datatype Entry<H> = Entry(handle: H, lastUsed: int)

  /** `live` is the table, `taken` the handles removed and about to be ended by their taker,
      `ended` one element for each time a handle was ended, `given` the handles accepted. */
  datatype Pool<!K, !H> = Pool(live: map<K, Entry<H>>, taken: set<H>, ended: multiset<H>, given: set<H>)

  ghost predicate HeldAt<K, H>(p: Pool<K, H>, k: K, h: H) {
    k in p.live && p.live[k].handle == h
  }

  ghost predicate Held<K(!new), H>(p: Pool<K, H>, h: H) {
    exists k :: HeldAt(p, k, h)
  }

  /** No two entries hold the same handle. */
  ghost predicate Distinct<K(!new), H>(p: Pool<K, H>) {
    forall j, k :: j in p.live && k in p.live && p.live[j].handle == p.live[k].handle ==> j == k
  }

  /** A handle accepted is open and held by one entry, or removed and still open in its taker's
      hands, or removed and ended exactly once. One that was not is in none of these places. */
  ghost predicate Placed<K(!new), H>(p: Pool<K, H>, h: H) {
    if h in p.given then
      || (Held(p, h) && h !in p.taken && p.ended[h] == 0)
      || (!Held(p, h) && h in p.taken && p.ended[h] == 0)
      || (!Held(p, h) && h !in p.taken && p.ended[h] == 1)
    else !Held(p, h) && h !in p.taken && p.ended[h] == 0
  }

  ghost predicate Inv<K(!new), H(!new)>(p: Pool<K, H>) {
    Distinct(p) && forall h :: Placed(p, h)
  }

  // ---------------------------------------------------------------- the steps

  function Put<K, H>(p: Pool<K, H>, k: K, h: H, now: int): Pool<K, H> {
    p.(live := p.live[k := Entry(h, now)], given := p.given + {h})
  }

  function Touch<K, H>(p: Pool<K, H>, k: K, now: int): Pool<K, H> {
    if k in p.live then p.(live := p.live[k := p.live[k].(lastUsed := now)]) else p
  }

  /** The old handle is ended and the new one takes its place. */
  function Replace<K, H>(p: Pool<K, H>, k: K, h: H, now: int): Pool<K, H>
    requires k in p.live
  {
    Pool(p.live[k := Entry(h, now)], p.taken, p.ended + multiset{p.live[k].handle}, p.given + {h})
  }

  function Close<K, H>(p: Pool<K, H>, k: K): Pool<K, H> {
    if k in p.live then p.(live := p.live - {k}, ended := p.ended + multiset{p.live[k].handle}) else p
  }

  function Take<K, H>(p: Pool<K, H>, k: K): Pool<K, H>
    requires k in p.live
  {
    p.(live := p.live - {k}, taken := p.taken + {p.live[k].handle})
  }

  function End<K, H>(p: Pool<K, H>, h: H): Pool<K, H> {
    p.(taken := p.taken - {h}, ended := p.ended + multiset{h})
  }

  predicate Idle<H>(e: Entry<H>, cutoff: int) {
    e.lastUsed <= cutoff
  }

  /** The handles of the idle entries. */
  function IdleHandles<K, H>(live: map<K, Entry<H>>, cutoff: int): set<H> {
    set k | k in live && Idle(live[k], cutoff) :: live[k].handle
  }

  function Fresh<K, H>(live: map<K, Entry<H>>, cutoff: int): map<K, Entry<H>> {
    map k | k in live && !Idle(live[k], cutoff) :: live[k]
  }

  function Sweep<K, H>(p: Pool<K, H>, cutoff: int): Pool<K, H> {
    p.(live := Fresh(p.live, cutoff), ended := p.ended + multiset(IdleHandles(p.live, cutoff)))
  }

  // ---------------------------------------------------------------- every step keeps the places

  lemma PutKeeps<K(!new), H(!new)>(p: Pool<K, H>, k: K, h: H, now: int)
    requires Inv(p) && k !in p.live && h !in p.given
    ensures Inv(Put(p, k, h, now))
  {
    var q := Put(p, k, h, now);
    forall g
      ensures Placed(q, g)
    {
      assert Placed(p, g) && HeldAt(q, k, h);
      forall j | j != k
        ensures HeldAt(q, j, g) <==> HeldAt(p, j, g)
      {
      }
      assert g != h ==> !HeldAt(q, k, g);
    }
    assert Placed(p, h);
    forall j | j in p.live
      ensures p.live[j].handle != h
    {
      assert HeldAt(p, j, p.live[j].handle);
    }
  }

  lemma TouchKeeps<K(!new), H(!new)>(p: Pool<K, H>, k: K, now: int)
    requires Inv(p)
    ensures Inv(Touch(p, k, now))
  {
    var q := Touch(p, k, now);
    forall g
      ensures Placed(q, g)
    {
      assert Placed(p, g);
      assert forall j :: HeldAt(q, j, g) <==> HeldAt(p, j, g);
    }
  }

  lemma CloseKeeps<K(!new), H(!new)>(p: Pool<K, H>, k: K)
    requires Inv(p)
    ensures Inv(Close(p, k))
  {
    var q := Close(p, k);
    forall g
      ensures Placed(q, g)
    {
      assert Placed(p, g);
      if k in p.live && p.live[k].handle == g {
        assert HeldAt(p, k, g);
        assert forall j :: !HeldAt(q, j, g);
      } else {
        assert forall j :: HeldAt(q, j, g) <==> HeldAt(p, j, g);
      }
    }
  }

  lemma ReplaceKeeps<K(!new), H(!new)>(p: Pool<K, H>, k: K, h: H, now: int)
    requires Inv(p) && k in p.live && h !in p.given
    ensures Inv(Replace(p, k, h, now))
  {
    CloseKeeps(p, k);
    PutKeeps(Close(p, k), k, h, now);
    assert Close(p, k).live[k := Entry(h, now)] == p.live[k := Entry(h, now)];
  }

  lemma TakeKeeps<K(!new), H(!new)>(p: Pool<K, H>, k: K)
    requires Inv(p) && k in p.live
    ensures Inv(Take(p, k))
  {
    var q := Take(p, k);
    forall g
      ensures Placed(q, g)
    {
      assert Placed(p, g);
      if p.live[k].handle == g {
        assert HeldAt(p, k, g);
        assert forall j :: !HeldAt(q, j, g);
      } else {
        assert forall j :: HeldAt(q, j, g) <==> HeldAt(p, j, g);
      }
    }
  }

  lemma EndKeeps<K(!new), H(!new)>(p: Pool<K, H>, h: H)
    requires Inv(p) && h in p.taken
    ensures Inv(End(p, h))
  {
    var q := End(p, h);
    forall g
      ensures Placed(q, g)
    {
      assert Placed(p, g);
      assert forall j :: HeldAt(q, j, g) <==> HeldAt(p, j, g);
    }
  }

  lemma SweepKeeps<K(!new), H(!new)>(p: Pool<K, H>, cutoff: int)
    requires Inv(p)
    ensures Inv(Sweep(p, cutoff))
  {
    var q := Sweep(p, cutoff);
    forall g
      ensures Placed(q, g)
    {
      assert Placed(p, g);
      if k :| HeldAt(p, k, g) {
        SweptOrKept(p, cutoff, k);
        assert forall j :: HeldAt(p, j, g) ==> j == k;
        assert Held(q, g) <==> HeldAt(q, k, g);
      } else {
        assert forall j :: !HeldAt(p, j, g);
        assert forall j :: HeldAt(q, j, g) ==> HeldAt(p, j, g);
        assert forall j :: j in p.live ==> HeldAt(p, j, p.live[j].handle);
        assert g !in IdleHandles(p.live, cutoff);
      }
    }
  }

  /** An entry survives the sweep exactly when it was used after the cutoff; otherwise its
      handle is ended. */
  lemma SweptOrKept<K(!new), H>(p: Pool<K, H>, cutoff: int, k: K)
    requires Distinct(p) && k in p.live
    ensures k in Sweep(p, cutoff).live <==> p.live[k].lastUsed > cutoff
    ensures p.live[k].handle in IdleHandles(p.live, cutoff) <==> p.live[k].lastUsed <= cutoff
  {
  }

  // ---------------------------------------------------------------- the sweep as a loop

  function Part<K, H>(live: map<K, Entry<H>>, among: set<K>): map<K, Entry<H>> {
    map k | k in live && k in among :: live[k]
  }

  /** The pool after the sweep has looked at the keys `done`. */
  function Swept<K, H>(p: Pool<K, H>, cutoff: int, done: set<K>): Pool<K, H> {
    p.(live := map k | k in p.live && !(k in done && Idle(p.live[k], cutoff)) :: p.live[k],
       ended := p.ended + multiset(IdleHandles(Part(p.live, done), cutoff)))
  }

  lemma SweptStart<K(!new), H>(p: Pool<K, H>, cutoff: int)
    ensures Swept(p, cutoff, {}) == p
  {
    assert IdleHandles(Part(p.live, {}), cutoff) == {};
    assert Swept(p, cutoff, {}).live == p.live;
  }

  lemma SweptEnd<K(!new), H>(p: Pool<K, H>, cutoff: int, done: set<K>)
    requires done == p.live.Keys
    ensures Swept(p, cutoff, done) == Sweep(p, cutoff)
  {
    assert Part(p.live, p.live.Keys) == p.live;
    assert Swept(p, cutoff, p.live.Keys).live == Fresh(p.live, cutoff);
  }

  lemma IdleOneMore<K(!new), H>(p: Pool<K, H>, done: set<K>, k: K, cutoff: int)
    requires Distinct(p) && k in p.live && k !in done
    ensures var before, after := Part(p.live, done), Part(p.live, done + {k});
            && IdleHandles(after, cutoff)
               == IdleHandles(before, cutoff) + (if Idle(p.live[k], cutoff) then {p.live[k].handle} else {})
            && (Idle(p.live[k], cutoff) ==> p.live[k].handle !in IdleHandles(before, cutoff))
  {
    var before, after := Part(p.live, done), Part(p.live, done + {k});
    forall h
      ensures h in IdleHandles(after, cutoff)
         <==> h in IdleHandles(before, cutoff) || (Idle(p.live[k], cutoff) && h == p.live[k].handle)
    {
      if h in IdleHandles(before, cutoff) {
        var j :| j in before && Idle(before[j], cutoff) && before[j].handle == h;
        assert j in after && after[j] == before[j];
      }
      if Idle(p.live[k], cutoff) && h == p.live[k].handle {
        assert k in after && after[k] == p.live[k];
      }
    }
  }

  /** Looking at one more key: an idle entry is closed, another one stays. */
  lemma SweptStep<K(!new), H>(p: Pool<K, H>, done: set<K>, k: K, cutoff: int)
    requires Distinct(p) && k in p.live && k !in done
    ensures k in Swept(p, cutoff, done).live && Swept(p, cutoff, done).live[k] == p.live[k]
    ensures Swept(p, cutoff, done + {k})
         == if Idle(p.live[k], cutoff) then Close(Swept(p, cutoff, done), k) else Swept(p, cutoff, done)
  {
    IdleOneMore(p, done, k, cutoff);
    LiveOneMore(p, done, k, cutoff);
    if Idle(p.live[k], cutoff) {
      EndedOneMore(p.ended, IdleHandles(Part(p.live, done), cutoff), p.live[k].handle);
    } else {
      assert IdleHandles(Part(p.live, done), cutoff) + {} == IdleHandles(Part(p.live, done), cutoff);
    }
  }

  lemma LiveOneMore<K(!new), H>(p: Pool<K, H>, done: set<K>, k: K, cutoff: int)
    requires k in p.live && k !in done
    ensures Swept(p, cutoff, done + {k}).live
         == if Idle(p.live[k], cutoff) then Swept(p, cutoff, done).live - {k} else Swept(p, cutoff, done).live
  {
  }

  lemma EndedOneMore<H>(ended: multiset<H>, before: set<H>, h: H)
    requires h !in before
    ensures ended + multiset(before + {h}) == ended + multiset(before) + multiset{h}
  {
    assert multiset(before + {h}) == multiset(before) + multiset{h};
  }

  /** What the sweep's loop does at one key. */
  function CloseIfIdle<K, H>(p: Pool<K, H>, cutoff: int, k: K): Pool<K, H> {
    if k in p.live && Idle(p.live[k], cutoff) then Close(p, k) else p
  }

  /** The loop over the keys in some order. */
  function SweptInOrder<K, H>(p: Pool<K, H>, cutoff: int, order: seq<K>): Pool<K, H> {
    if order == [] then p
    else CloseIfIdle(SweptInOrder(p, cutoff, order[..|order| - 1]), cutoff, order[|order| - 1])
  }

  lemma {:induction false} InOrderIs<K(!new), H>(p: Pool<K, H>, cutoff: int, order: seq<K>)
    requires Distinct(p) && forall k :: k in order ==> k in p.live
    ensures SweptInOrder(p, cutoff, order) == Swept(p, cutoff, set k | k in order)
  {
    if order == [] {
      SweptStart(p, cutoff);
      assert (set k | k in order) == {};
    } else {
      var front, k := order[..|order| - 1], order[|order| - 1];
      var done := set j | j in front;
      InOrderIs(p, cutoff, front);
      assert order == front + [k];
      assert (set j | j in order) == done + {k};
      if k in done {
        assert done + {k} == done;
      } else {
        SweptStep(p, done, k, cutoff);
      }
    }
  }

  /** In whatever order the keys are looked at, the loop is the sweep. */
  lemma AnyOrderSweeps<K(!new), H>(p: Pool<K, H>, cutoff: int, order: seq<K>, q: Pool<K, H>)
    requires q == SweptInOrder(p, cutoff, order)
    requires Distinct(p) && forall k :: k in order <==> k in p.live
    ensures q == Sweep(p, cutoff)
  {
    InOrderIs(p, cutoff, order);
    SweptEnd(p, cutoff, set k | k in order);
  }
}
