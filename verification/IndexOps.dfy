/** Pending index operations, web/src/features/schema/indexOps.ts. */
module IndexOps {
  import opened Sequences
  import opened Wrappers
  import opened Sorting

  datatype Index = Index(name: string, columns: seq<string>, unique: bool)

  /** `Unrelated` stands for the foreign key operations kept in the same list. */
  datatype Operation = DropIndex(name: string) | AddIndex(index: Index) | Unrelated(id: nat)

  // ---------------------------------------------------------------- the code

  function Keep<T(!new)>(s: seq<T>, keep: T -> bool): (r: seq<T>)
    ensures forall x :: x in r <==> x in s && keep(x)
  {
    if s == [] then [] else if keep(s[0]) then [s[0]] + Keep(s[1..], keep) else Keep(s[1..], keep)
  }

  /** One turn of the loop of `resolveIndexes`. An empty name is falsy, so that drop is skipped. */
  function ShowStep(list: seq<Index>, op: Operation): seq<Index> {
    match op
    case DropIndex(name) => if name != "" then Keep(list, (item: Index) => item.name != name) else list
    case AddIndex(index) => Keep(list, (item: Index) => item.name != index.name) + [index]
    case Unrelated(_) => list
  }

  function ShownFrom(list: seq<Index>, extra: seq<Operation>): seq<Index>
    decreases |extra|
  {
    if extra == [] then list else ShownFrom(ShowStep(list, extra[0]), extra[1..])
  }

  method ResolveIndexes(base: seq<Index>, extra: seq<Operation>, le: (Index, Index) -> bool) returns (r: seq<Index>)
    ensures r == Sorted(ShownFrom(base, extra), le)
  {
    var list := base;
    for i := 0 to |extra|
      invariant ShownFrom(list, extra[i..]) == ShownFrom(base, extra)
    {
      var op := extra[i];
      assert extra[i..][1..] == extra[i + 1..];
      if op.DropIndex? && op.name != "" {
        list := Keep(list, (item: Index) => item.name != op.name);
      }
      if op.AddIndex? {
        list := Keep(list, (item: Index) => item.name != op.index.name) + [op.index];
      }
    }
    r := Sorted(list, le);
  }

  function AppendAddIndex(extra: seq<Operation>, index: Index): seq<Operation> {
    Keep(extra, (op: Operation) => !(op.AddIndex? && op.index.name == index.name)) + [AddIndex(index)]
  }

  predicate HasName(base: seq<Index>, name: string) {
    exists item :: item in base && item.name == name
  }

  predicate About(op: Operation, name: string) {
    (op.DropIndex? && op.name == name) || (op.AddIndex? && op.index.name == name)
  }

  function Replace(extra: seq<Operation>, base: seq<Index>, originalName: string, index: Index): seq<Operation> {
    Keep(extra, (op: Operation) => !About(op, originalName) && !(op.AddIndex? && op.index.name == index.name))
    + (if HasName(base, originalName) then [DropIndex(originalName)] else []) + [AddIndex(index)]
  }

  function Drop(extra: seq<Operation>, base: seq<Index>, name: string): seq<Operation> {
    Keep(extra, (op: Operation) => !About(op, name)) + (if HasName(base, name) then [DropIndex(name)] else [])
  }

  // ---------------------------------------------------------------- what the list does to the table

  type Indexes = map<string, Index>

  /** None when an index to drop is missing or one to add is there. */
  function Apply(t: Indexes, op: Operation): Option<Indexes> {
    match op
    case DropIndex(name) => if name in t then Some(t - {name}) else None
    case AddIndex(index) => if index.name in t then None else Some(t[index.name := index])
    case Unrelated(_) => Some(t)
  }

  function Execute(t: Indexes, extra: seq<Operation>): Option<Indexes>
    decreases |extra|
  {
    if extra == [] then Some(t)
    else
      match Apply(t, extra[0])
      case None => None
      case Some(next) => Execute(next, extra[1..])
  }

  ghost predicate DistinctNames(base: seq<Index>) {
    forall i, j :: 0 <= i < j < |base| ==> base[i].name != base[j].name
  }

  /** The list holds exactly the indexes of `t`. */
  ghost predicate Holds(list: seq<Index>, t: Indexes) {
    DistinctNames(list) && forall item :: item in list <==> item.name in t && t[item.name] == item
  }

  function TableOf(base: seq<Index>): Indexes {
    if base == [] then map[] else TableOf(base[..|base| - 1])[base[|base| - 1].name := base[|base| - 1]]
  }

  ghost predicate SelfNamed(t: Indexes) {
    forall name :: name in t ==> t[name].name == name
  }

  lemma HasNameAppend(front: seq<Index>, last: Index, name: string)
    ensures HasName(front + [last], name) <==> HasName(front, name) || last.name == name
  {
    assert last in front + [last];
    assert forall item :: item in front + [last] <==> item in front || item == last;
  }

  /** A table of a base list. */
  ghost predicate IsTable(base: seq<Index>, t: Indexes) {
    Holds(base, t) && SelfNamed(t) && forall name :: HasName(base, name) <==> name in t
  }

  lemma {:induction false} BaseHolds(base: seq<Index>)
    requires DistinctNames(base)
    ensures IsTable(base, TableOf(base))
  {
    if base != [] {
      var front, last := base[..|base| - 1], base[|base| - 1];
      BaseHolds(front);
      assert base == front + [last];
      OneMoreIndex(front, TableOf(front), last);
    }
  }

  lemma OneMoreIndex(front: seq<Index>, t: Indexes, last: Index)
    requires IsTable(front, t) && DistinctNames(front + [last])
    ensures IsTable(front + [last], t[last.name := last])
  {
    forall item | item in front
      ensures item.name != last.name
    {
      var i :| 0 <= i < |front| && front[i] == item;
      assert (front + [last])[i].name != (front + [last])[|front|].name;
    }
    forall name
      ensures HasName(front + [last], name) <==> name in t[last.name := last]
    {
      HasNameAppend(front, last, name);
    }
    HoldsOneMore(front, t, last);
  }

  lemma HoldsOneMore(front: seq<Index>, t: Indexes, last: Index)
    requires Holds(front, t) && SelfNamed(t) && !HasName(front, last.name) && DistinctNames(front + [last])
    ensures Holds(front + [last], t[last.name := last])
  {
    forall item
      ensures item in front + [last] <==> item.name in t[last.name := last] && t[last.name := last][item.name] == item
    {
      assert item in front + [last] <==> item in front || item == last;
    }
  }

  // ---------------------------------------------------------------- an executable list shows what it does

  lemma {:induction false} KeepDistinct(list: seq<Index>, keep: Index -> bool)
    requires DistinctNames(list)
    ensures DistinctNames(Keep(list, keep))
  {
    if list != [] {
      KeepDistinct(list[1..], keep);
      forall item | item in list[1..]
        ensures item.name != list[0].name
      {
        var i :| 0 <= i < |list[1..]| && list[1..][i] == item;
        assert list[i + 1].name != list[0].name;
      }
    }
  }

  lemma ShowStepHolds(list: seq<Index>, t: Indexes, op: Operation)
    requires Holds(list, t) && SelfNamed(t) && op != DropIndex("") && Apply(t, op).Some?
    ensures Holds(ShowStep(list, op), Apply(t, op).value) && SelfNamed(Apply(t, op).value)
  {
    if op.DropIndex? {
      KeepDistinct(list, (item: Index) => item.name != op.name);
    } else if op.AddIndex? {
      KeepDistinct(list, (item: Index) => item.name != op.index.name);
      AppendDistinct(Keep(list, (item: Index) => item.name != op.index.name), op.index);
    }
  }

  lemma AppendDistinct(list: seq<Index>, index: Index)
    requires DistinctNames(list) && forall item :: item in list ==> item.name != index.name
    ensures DistinctNames(list + [index])
  {
  }

  lemma {:induction false} ShownHolds(list: seq<Index>, t: Indexes, extra: seq<Operation>)
    requires Holds(list, t) && SelfNamed(t) && DropIndex("") !in extra && Execute(t, extra).Some?
    ensures Holds(ShownFrom(list, extra), Execute(t, extra).value)
    decreases |extra|
  {
    if extra != [] {
      assert extra[0] in extra;
      ShowStepHolds(list, t, extra[0]);
      ShownHolds(ShowStep(list, extra[0]), Apply(t, extra[0]).value, extra[1..]);
    }
  }

  // ---------------------------------------------------------------- one name at a time

  /** The operations of the list about one name. */
  function Story(extra: seq<Operation>, name: string): seq<Operation> {
    if extra == [] then []
    else (if About(extra[0], name) then [extra[0]] else []) + Story(extra[1..], name)
  }

  function Look(t: Indexes, name: string): Option<Index> {
    if name in t then Some(t[name]) else None
  }

  /** What operations about one name do to the index of that name. */
  function Replay(at: Option<Index>, story: seq<Operation>): Option<Option<Index>>
    decreases |story|
  {
    if story == [] then Some(at)
    else
      match story[0]
      case DropIndex(_) => if at.Some? then Replay(None, story[1..]) else None
      case AddIndex(index) => if at.None? then Replay(Some(index), story[1..]) else None
      case Unrelated(_) => Replay(at, story[1..])
  }

  lemma StoryStep(extra: seq<Operation>, t: Indexes, name: string)
    requires extra != [] && Apply(t, extra[0]).Some?
    ensures Replay(Look(t, name), Story(extra, name))
         == Replay(Look(Apply(t, extra[0]).value, name), Story(extra[1..], name))
  {
    var rest := Story(extra[1..], name);
    if About(extra[0], name) {
      assert Story(extra, name) == [extra[0]] + rest;
      assert ([extra[0]] + rest)[1..] == rest;
    } else {
      assert Story(extra, name) == rest;
    }
  }

  /** A list runs to the end if every name's operations do, and then each index is what its
      own operations leave. */
  lemma {:induction false} EachNameAlone(extra: seq<Operation>, t: Indexes)
    requires forall name :: Replay(Look(t, name), Story(extra, name)).Some?
    ensures Execute(t, extra).Some?
    ensures forall name :: Some(Look(Execute(t, extra).value, name)) == Replay(Look(t, name), Story(extra, name))
    decreases |extra|
  {
    if extra != [] {
      FirstRuns(extra, t);
      var next := Apply(t, extra[0]).value;
      forall name
        ensures Replay(Look(t, name), Story(extra, name)) == Replay(Look(next, name), Story(extra[1..], name))
      {
        StoryStep(extra, t, name);
      }
      EachNameAlone(extra[1..], next);
    }
  }

  lemma FirstRuns(extra: seq<Operation>, t: Indexes)
    requires extra != [] && forall name :: Replay(Look(t, name), Story(extra, name)).Some?
    ensures Apply(t, extra[0]).Some?
  {
    if !extra[0].Unrelated? {
      var name := if extra[0].DropIndex? then extra[0].name else extra[0].index.name;
      var rest := Story(extra[1..], name);
      assert Story(extra, name) == [extra[0]] + rest;
      assert Replay(Look(t, name), Story(extra, name)).Some?;
    }
  }

  // ---------------------------------------------------------------- the shape of a pending list

  /** A base index is untouched, dropped, or dropped and added anew; another is added. */
  ghost predicate Plain(story: seq<Operation>, inBase: bool, name: string) {
    || story == []
    || (inBase && story == [DropIndex(name)])
    || (inBase && |story| == 2 && story[0] == DropIndex(name) && story[1].AddIndex? && story[1].index.name == name)
    || (!inBase && |story| == 1 && story[0].AddIndex? && story[0].index.name == name)
  }

  ghost predicate Pending(base: seq<Index>, extra: seq<Operation>) {
    forall name :: Plain(Story(extra, name), HasName(base, name), name)
  }

  /** The index a plain story leaves. */
  function Left(at: Option<Index>, story: seq<Operation>): Option<Index> {
    if story == [] then at
    else if story[|story| - 1].AddIndex? then Some(story[|story| - 1].index)
    else None
  }

  lemma PlainReplays(at: Option<Index>, story: seq<Operation>, name: string)
    requires Plain(story, at.Some?, name)
    ensures Replay(at, story) == Some(Left(at, story))
  {
    if |story| == 2 {
      assert story[1..] == [story[1]];
      assert story[1..][1..] == [];
      assert Replay(None, story[1..]) == Some(Some(story[1].index));
    } else if |story| == 1 {
      assert story[1..] == [];
    }
  }

  /** A pending list can be executed on the base, and leaves for each name what its story says. */
  lemma PendingExecutes(base: seq<Index>, extra: seq<Operation>)
    requires DistinctNames(base) && Pending(base, extra)
    ensures Execute(TableOf(base), extra).Some?
    ensures forall name :: Look(Execute(TableOf(base), extra).value, name)
                        == Left(Look(TableOf(base), name), Story(extra, name))
  {
    BaseHolds(base);
    forall name
      ensures Replay(Look(TableOf(base), name), Story(extra, name))
           == Some(Left(Look(TableOf(base), name), Story(extra, name)))
    {
      assert HasName(base, name) <==> name in TableOf(base);
      PlainReplays(Look(TableOf(base), name), Story(extra, name), name);
    }
    EachNameAlone(extra, TableOf(base));
    assert forall name :: Some(Look(Execute(TableOf(base), extra).value, name))
                       == Some(Left(Look(TableOf(base), name), Story(extra, name)));
  }

  // ---------------------------------------------------------------- the three edits on stories

  lemma {:induction false} StoryAppend(a: seq<Operation>, b: seq<Operation>, name: string)
    ensures Story(a + b, name) == Story(a, name) + Story(b, name)
  {
    if a == [] {
      assert a + b == b;
    } else {
      assert (a + b)[1..] == a[1..] + b;
      StoryAppend(a[1..], b, name);
      Reassociate(if About(a[0], name) then [a[0]] else [], Story(a[1..], name), Story(b, name));
    }
  }

  lemma {:induction false} StoryKeep(extra: seq<Operation>, keep: Operation -> bool, name: string)
    ensures Story(Keep(extra, keep), name) == Keep(Story(extra, name), keep)
  {
    if extra != [] {
      StoryKeep(extra[1..], keep, name);
      var rest := Story(extra[1..], name);
      if About(extra[0], name) {
        assert Story(extra, name) == [extra[0]] + rest;
        assert ([extra[0]] + rest)[1..] == rest;
      } else {
        assert Story(extra, name) == rest;
      }
      if keep(extra[0]) {
        var kept := Keep(extra[1..], keep);
        assert ([extra[0]] + kept)[1..] == kept;
      }
    }
  }

  lemma {:induction false} KeepAll<T(!new)>(s: seq<T>, keep: T -> bool)
    requires forall x :: x in s ==> keep(x)
    ensures Keep(s, keep) == s
  {
    if s != [] {
      KeepAll(s[1..], keep);
      assert s == [s[0]] + s[1..];
    }
  }

  lemma {:induction false} KeepNone<T(!new)>(s: seq<T>, keep: T -> bool)
    requires forall x :: x in s ==> !keep(x)
    ensures Keep(s, keep) == []
  {
    if s != [] {
      KeepNone(s[1..], keep);
    }
  }

  lemma {:induction false} StoryIsAbout(extra: seq<Operation>, name: string)
    ensures forall op :: op in Story(extra, name) ==> About(op, name)
  {
    if extra != [] {
      StoryIsAbout(extra[1..], name);
    }
  }

  /** The story of a short list. */
  lemma StoryOfOne(op: Operation, name: string)
    ensures Story([op], name) == if About(op, name) then [op] else []
  {
    assert [op][1..] == [];
  }

  function DropIfBase(base: seq<Index>, name: string): seq<Operation> {
    if HasName(base, name) then [DropIndex(name)] else []
  }

  lemma StoryOfDrop(base: seq<Index>, dropped: string, name: string)
    ensures Story(DropIfBase(base, dropped), name) == if name == dropped then DropIfBase(base, dropped) else []
  {
    StoryOfOne(DropIndex(dropped), name);
  }

  /** The name is in the table the pending list leads to. */
  ghost predicate Live(base: seq<Index>, extra: seq<Operation>, name: string) {
    Left(Look(TableOf(base), name), Story(extra, name)).Some?
  }

  lemma AddStory(base: seq<Index>, extra: seq<Operation>, index: Index, name: string)
    requires DistinctNames(base) && Pending(base, extra) && !Live(base, extra, index.name)
    ensures Story(AppendAddIndex(extra, index), name)
         == Story(extra, name) + (if name == index.name then [AddIndex(index)] else [])
  {
    var keep := (op: Operation) => !(op.AddIndex? && op.index.name == index.name);
    StoryAppend(Keep(extra, keep), [AddIndex(index)], name);
    StoryKeep(extra, keep, name);
    StoryOfOne(AddIndex(index), name);
    StoryIsAbout(extra, name);
    NoAddPending(base, extra, index.name);
    KeepAll(Story(extra, name), keep);
  }

  /** A name that is not live has no pending add. */
  lemma NoAddPending(base: seq<Index>, extra: seq<Operation>, name: string)
    requires DistinctNames(base) && Pending(base, extra) && !Live(base, extra, name)
    ensures forall op :: op in Story(extra, name) ==> !op.AddIndex?
    ensures Story(extra, name) == DropIfBase(base, name)
  {
    BaseHolds(base);
    assert Plain(Story(extra, name), HasName(base, name), name);
    assert HasName(base, name) <==> name in TableOf(base);
  }

  lemma DropStory(base: seq<Index>, extra: seq<Operation>, dropped: string, name: string)
    ensures Story(Drop(extra, base, dropped), name)
         == if name == dropped then DropIfBase(base, dropped) else Story(extra, name)
  {
    var keep := (op: Operation) => !About(op, dropped);
    StoryAppend(Keep(extra, keep), DropIfBase(base, dropped), name);
    StoryKeep(extra, keep, name);
    StoryOfDrop(base, dropped, name);
    StoryIsAbout(extra, name);
    if name == dropped {
      KeepNone(Story(extra, name), keep);
    } else {
      KeepAll(Story(extra, name), keep);
    }
  }

  lemma ReplaceStory(base: seq<Index>, extra: seq<Operation>, original: string, index: Index, name: string)
    requires DistinctNames(base) && Pending(base, extra)
    requires index.name == original || !Live(base, extra, index.name)
    ensures Story(Replace(extra, base, original, index), name)
         == (if name == original then DropIfBase(base, original) else Story(extra, name))
            + (if name == index.name then [AddIndex(index)] else [])
  {
    var kept := Keep(extra, (op: Operation) => !About(op, original) && !(op.AddIndex? && op.index.name == index.name));
    var drop := DropIfBase(base, original);
    StoryAppend(kept + drop, [AddIndex(index)], name);
    StoryAppend(kept, drop, name);
    StoryOfDrop(base, original, name);
    StoryOfOne(AddIndex(index), name);
    KeptStory(base, extra, original, index, name);
    assert Story(kept, name) + Story(drop, name) == if name == original then drop else Story(extra, name);
  }

  lemma KeptStory(base: seq<Index>, extra: seq<Operation>, original: string, index: Index, name: string)
    requires DistinctNames(base) && Pending(base, extra)
    requires index.name == original || !Live(base, extra, index.name)
    ensures Story(Keep(extra, (op: Operation) => !About(op, original) && !(op.AddIndex? && op.index.name == index.name)), name)
         == if name == original then [] else Story(extra, name)
  {
    var keep := (op: Operation) => !About(op, original) && !(op.AddIndex? && op.index.name == index.name);
    StoryKeep(extra, keep, name);
    StoryIsAbout(extra, name);
    if name == original {
      KeepNone(Story(extra, name), keep);
    } else {
      if name == index.name {
        NoAddPending(base, extra, name);
      }
      KeepAll(Story(extra, name), keep);
    }
  }

  // ---------------------------------------------------------------- editing sessions

  datatype Edit = Add(index: Index) | Change(original: string, index: Index) | Delete(name: string) | Relation(id: nat)

  predicate Visible(base: seq<Index>, extra: seq<Operation>, name: string) {
    HasName(ShownFrom(base, extra), name)
  }

  /** What the workspace lets its user do: add under a name not shown, edit and delete what
      is shown, rename to a name not shown. */
  predicate Allowed(base: seq<Index>, extra: seq<Operation>, edit: Edit) {
    match edit
    case Add(index) => !Visible(base, extra, index.name)
    case Change(original, index) =>
      Visible(base, extra, original) && (index.name == original || !Visible(base, extra, index.name))
    case Delete(name) => Visible(base, extra, name)
    case Relation(_) => true
  }

  function Step(base: seq<Index>, extra: seq<Operation>, edit: Edit): seq<Operation> {
    match edit
    case Add(index) => AppendAddIndex(extra, index)
    case Change(original, index) => Replace(extra, base, original, index)
    case Delete(name) => Drop(extra, base, name)
    case Relation(id) => extra + [Unrelated(id)]
  }

  /** What the edit means for the table's indexes. */
  function Meant(t: Indexes, edit: Edit): Indexes {
    match edit
    case Add(index) => t[index.name := index]
    case Change(original, index) => (t - {original})[index.name := index]
    case Delete(name) => t - {name}
    case Relation(_) => t
  }

  /** The pending list after a session, from an empty one. */
  function After(base: seq<Index>, edits: seq<Edit>): seq<Operation> {
    if edits == [] then [] else Step(base, After(base, edits[..|edits| - 1]), edits[|edits| - 1])
  }

  predicate AllowedSession(base: seq<Index>, edits: seq<Edit>) {
    edits == []
    || (AllowedSession(base, edits[..|edits| - 1]) && Allowed(base, After(base, edits[..|edits| - 1]), edits[|edits| - 1]))
  }

  function MeantBy(t: Indexes, edits: seq<Edit>): Indexes {
    if edits == [] then t else Meant(MeantBy(t, edits[..|edits| - 1]), edits[|edits| - 1])
  }

  /** Executing the list gives exactly what is shown. */
  ghost predicate ShowsResult(base: seq<Index>, extra: seq<Operation>) {
    Execute(TableOf(base), extra).Some? && Holds(ShownFrom(base, extra), Execute(TableOf(base), extra).value)
  }

  lemma NamelessNotDropped(base: seq<Index>, extra: seq<Operation>)
    requires !HasName(base, "") && Pending(base, extra)
    ensures DropIndex("") !in extra
  {
    InStory(extra, DropIndex(""), "");
    assert Plain(Story(extra, ""), HasName(base, ""), "");
  }

  lemma PendingShows(base: seq<Index>, extra: seq<Operation>)
    requires DistinctNames(base) && !HasName(base, "") && Pending(base, extra)
    ensures ShowsResult(base, extra)
    ensures forall name :: Visible(base, extra, name) <==> Live(base, extra, name)
  {
    BaseHolds(base);
    PendingExecutes(base, extra);
    NamelessNotDropped(base, extra);
    ShownHolds(base, TableOf(base), extra);
    ExecuteSelfNamed(TableOf(base), extra);
    VisibleIsLive(base, extra, Execute(TableOf(base), extra).value);
  }

  lemma VisibleIsLive(base: seq<Index>, extra: seq<Operation>, t: Indexes)
    requires Holds(ShownFrom(base, extra), t) && SelfNamed(t)
    requires forall name :: Look(t, name) == Left(Look(TableOf(base), name), Story(extra, name))
    ensures forall name :: Visible(base, extra, name) <==> Live(base, extra, name)
  {
    forall name
      ensures Visible(base, extra, name) <==> Live(base, extra, name)
    {
      HeldNames(ShownFrom(base, extra), t, name);
      assert Look(t, name) == Left(Look(TableOf(base), name), Story(extra, name));
    }
  }

  lemma HeldNames(list: seq<Index>, t: Indexes, name: string)
    requires Holds(list, t) && SelfNamed(t)
    ensures HasName(list, name) <==> Look(t, name).Some?
  {
    if name in t {
      assert t[name].name == name && t[name] in list;
    }
  }

  lemma {:induction false} ExecuteSelfNamed(t: Indexes, extra: seq<Operation>)
    requires SelfNamed(t) && Execute(t, extra).Some?
    ensures SelfNamed(Execute(t, extra).value)
    decreases |extra|
  {
    if extra != [] {
      ExecuteSelfNamed(Apply(t, extra[0]).value, extra[1..]);
    }
  }

  lemma {:induction false} InStory(extra: seq<Operation>, op: Operation, name: string)
    requires About(op, name)
    ensures op in extra ==> op in Story(extra, name)
  {
    if extra != [] {
      InStory(extra[1..], op, name);
    }
  }

  /** The names are such that the edit can be executed. */
  ghost predicate Free(base: seq<Index>, extra: seq<Operation>, edit: Edit) {
    && (edit.Add? ==> !Live(base, extra, edit.index.name))
    && (edit.Change? ==> edit.index.name == edit.original || !Live(base, extra, edit.index.name))
  }

  lemma AllowedIsFree(base: seq<Index>, extra: seq<Operation>, edit: Edit)
    requires DistinctNames(base) && !HasName(base, "") && Pending(base, extra) && Allowed(base, extra, edit)
    ensures Free(base, extra, edit)
  {
    PendingShows(base, extra);
  }

  /** One edit keeps the list pending. */
  lemma StepPending(base: seq<Index>, extra: seq<Operation>, edit: Edit)
    requires DistinctNames(base) && Pending(base, extra) && Free(base, extra, edit)
    ensures Pending(base, Step(base, extra, edit))
    ensures forall name :: Left(Look(TableOf(base), name), Story(Step(base, extra, edit), name))
                        == Edited(edit, name, Left(Look(TableOf(base), name), Story(extra, name)))
  {
    BaseHolds(base);
    forall name
      ensures Plain(Story(Step(base, extra, edit), name), HasName(base, name), name)
      ensures Left(Look(TableOf(base), name), Story(Step(base, extra, edit), name))
           == Edited(edit, name, Left(Look(TableOf(base), name), Story(extra, name)))
    {
      StepStory(base, extra, edit, name);
    }
  }

  /** The effect of an edit on the index of one name. */
  function Edited(edit: Edit, name: string, at: Option<Index>): Option<Index> {
    match edit
    case Add(index) => if name == index.name then Some(index) else at
    case Change(original, index) => if name == index.name then Some(index) else if name == original then None else at
    case Delete(dropped) => if name == dropped then None else at
    case Relation(_) => at
  }

  /** The story and the index an edit leaves for one name. */
  ghost predicate StepRight(base: seq<Index>, extra: seq<Operation>, edit: Edit, name: string) {
    && Plain(Story(Step(base, extra, edit), name), HasName(base, name), name)
    && Left(Look(TableOf(base), name), Story(Step(base, extra, edit), name))
       == Edited(edit, name, Left(Look(TableOf(base), name), Story(extra, name)))
  }

  lemma AddStep(base: seq<Index>, extra: seq<Operation>, index: Index, name: string)
    requires DistinctNames(base) && Pending(base, extra) && !Live(base, extra, index.name)
    ensures StepRight(base, extra, Add(index), name)
  {
    assert Plain(Story(extra, name), HasName(base, name), name);
    AddStory(base, extra, index, name);
    if name == index.name {
      NoAddPending(base, extra, name);
    }
  }

  lemma ChangeStep(base: seq<Index>, extra: seq<Operation>, original: string, index: Index, name: string)
    requires DistinctNames(base) && Pending(base, extra)
    requires index.name == original || !Live(base, extra, index.name)
    requires HasName(base, name) <==> name in TableOf(base)
    ensures StepRight(base, extra, Change(original, index), name)
  {
    var front := if name == original then DropIfBase(base, original) else Story(extra, name);
    assert Plain(Story(extra, name), HasName(base, name), name);
    if name == index.name && name != original {
      NoAddPending(base, extra, name);
    }
    ReplaceStory(base, extra, original, index, name);
    if name == index.name {
      AddedStory(front, HasName(base, name), index, Look(TableOf(base), name));
    } else {
      assert front + [] == front;
    }
  }

  lemma AddedStory(front: seq<Operation>, inBase: bool, index: Index, at: Option<Index>)
    requires front == if inBase then [DropIndex(index.name)] else []
    ensures Plain(front + [AddIndex(index)], inBase, index.name) && Left(at, front + [AddIndex(index)]) == Some(index)
  {
  }

  lemma DeleteStep(base: seq<Index>, extra: seq<Operation>, dropped: string, name: string)
    requires Pending(base, extra) && (HasName(base, name) <==> name in TableOf(base))
    ensures StepRight(base, extra, Delete(dropped), name)
  {
    assert Plain(Story(extra, name), HasName(base, name), name);
    DropStory(base, extra, dropped, name);
  }

  lemma RelationStep(base: seq<Index>, extra: seq<Operation>, id: nat, name: string)
    requires Pending(base, extra)
    ensures StepRight(base, extra, Relation(id), name)
  {
    assert Plain(Story(extra, name), HasName(base, name), name);
    StoryAppend(extra, [Unrelated(id)], name);
    StoryOfOne(Unrelated(id), name);
    assert Story(extra, name) + [] == Story(extra, name);
    assert Story(Step(base, extra, Relation(id)), name) == Story(extra, name);
  }

  lemma StepStory(base: seq<Index>, extra: seq<Operation>, edit: Edit, name: string)
    requires DistinctNames(base) && Pending(base, extra)
    requires edit.Add? ==> !Live(base, extra, edit.index.name)
    requires edit.Change? ==> edit.index.name == edit.original || !Live(base, extra, edit.index.name)
    requires HasName(base, name) <==> name in TableOf(base)
    ensures StepRight(base, extra, edit, name)
  {
    match edit
    case Add(index) => AddStep(base, extra, index, name);
    case Change(original, index) => ChangeStep(base, extra, original, index, name);
    case Delete(dropped) => DeleteStep(base, extra, dropped, name);
    case Relation(id) => RelationStep(base, extra, id, name);
  }

  lemma MeantLooks(t: Indexes, edit: Edit)
    ensures forall name :: Look(Meant(t, edit), name) == Edited(edit, name, Look(t, name))
  {
  }

  /** If a pending list was edited into `next`, that is pending too, and running it gives what
      running the old one gave, with just this edit. */
  ghost predicate RunsEdited(base: seq<Index>, extra: seq<Operation>, edit: Edit, next: seq<Operation>) {
    DistinctNames(base) && Pending(base, extra) && Free(base, extra, edit) ==>
      && Pending(base, next) && Execute(TableOf(base), extra).Some?
      && Execute(TableOf(base), next) == Some(Meant(Execute(TableOf(base), extra).value, edit))
  }

  lemma StepRunsEdited(base: seq<Index>, extra: seq<Operation>, edit: Edit)
    ensures RunsEdited(base, extra, edit, Step(base, extra, edit))
  {
    if DistinctNames(base) && Pending(base, extra) && Free(base, extra, edit) {
      StepPending(base, extra, edit);
      PendingExecutes(base, extra);
      PendingExecutes(base, Step(base, extra, edit));
      var before, after := Execute(TableOf(base), extra).value, Execute(TableOf(base), Step(base, extra, edit)).value;
      MeantLooks(before, edit);
      forall name
        ensures Look(after, name) == Look(Meant(before, edit), name)
      {
      }
      SameLooks(after, Meant(before, edit));
    }
  }

  method ReplaceIndex(extra: seq<Operation>, base: seq<Index>, originalName: string, index: Index) returns (next: seq<Operation>)
    ensures next == Step(base, extra, Change(originalName, index))
    ensures RunsEdited(base, extra, Change(originalName, index), next)
  {
    next := Keep(extra, (op: Operation) => !About(op, originalName) && !(op.AddIndex? && op.index.name == index.name));
    if HasName(base, originalName) {
      next := next + [DropIndex(originalName)];
    }
    next := next + [AddIndex(index)];
    StepRunsEdited(base, extra, Change(originalName, index));
  }

  method DropIndexOps(extra: seq<Operation>, base: seq<Index>, name: string) returns (next: seq<Operation>)
    ensures next == Step(base, extra, Delete(name))
    ensures RunsEdited(base, extra, Delete(name), next)
  {
    next := Keep(extra, (op: Operation) => !About(op, name));
    if HasName(base, name) {
      next := next + [DropIndex(name)];
    }
    StepRunsEdited(base, extra, Delete(name));
  }

  lemma {:induction false} SessionPending(base: seq<Index>, edits: seq<Edit>)
    requires DistinctNames(base) && !HasName(base, "") && AllowedSession(base, edits)
    ensures Pending(base, After(base, edits))
    ensures forall name :: Left(Look(TableOf(base), name), Story(After(base, edits), name))
                        == Look(MeantBy(TableOf(base), edits), name)
  {
    if edits != [] {
      var before, edit := edits[..|edits| - 1], edits[|edits| - 1];
      SessionPending(base, before);
      AllowedIsFree(base, After(base, before), edit);
      StepPending(base, After(base, before), edit);
      MeantLooks(MeantBy(TableOf(base), before), edit);
    }
  }

  /** After any session the pending list runs on the base indexes, gives exactly what is
      shown, and that is what the edits meant. */
  lemma SessionsExecute(base: seq<Index>, edits: seq<Edit>)
    requires DistinctNames(base) && !HasName(base, "") && AllowedSession(base, edits)
    ensures ShowsResult(base, After(base, edits))
    ensures Execute(TableOf(base), After(base, edits)) == Some(MeantBy(TableOf(base), edits))
  {
    SessionPending(base, edits);
    PendingShows(base, After(base, edits));
    PendingExecutes(base, After(base, edits));
    var t, meant := Execute(TableOf(base), After(base, edits)).value, MeantBy(TableOf(base), edits);
    forall name
      ensures Look(t, name) == Look(meant, name)
    {
    }
    SameLooks(t, meant);
  }

  lemma SameLooks(t: Indexes, u: Indexes)
    requires forall name :: Look(t, name) == Look(u, name)
    ensures t == u
  {
    forall name
      ensures name in t <==> name in u
      ensures name in t && name in u ==> t[name] == u[name]
    {
      assert Look(t, name) == Look(u, name);
    }
  }

  /** A base index with an empty name is dropped by the list and still shown. */
  lemma NamelessDropIsHidden(base: seq<Index>)
    requires DistinctNames(base) && HasName(base, "")
    ensures AllowedSession(base, [Delete("")]) && !ShowsResult(base, After(base, [Delete("")]))
  {
    var edits := [Delete("")];
    assert edits[..0] == [];
    assert ShownFrom(base, []) == base;
    assert After(base, []) == [] && Keep([], (op: Operation) => !About(op, "")) == [];
    var extra := After(base, edits);
    assert extra == [DropIndex("")];
    assert extra[1..] == [];
    BaseHolds(base);
    assert ShowStep(base, extra[0]) == base;
    assert ShownFrom(base, extra) == base;
    var item :| item in base && item.name == "";
    assert "" in TableOf(base);
    assert Execute(TableOf(base), extra) == Some(TableOf(base) - {""});
  }

  /** Every session shows what it executes if and only if no base index has an empty name. */
  lemma SessionsExecuteExactly(base: seq<Index>)
    requires DistinctNames(base)
    ensures (forall edits :: AllowedSession(base, edits) ==> ShowsResult(base, After(base, edits))) <==> !HasName(base, "")
  {
    if HasName(base, "") {
      NamelessDropIsHidden(base);
    } else {
      forall edits | AllowedSession(base, edits)
        ensures ShowsResult(base, After(base, edits))
      {
        SessionsExecute(base, edits);
      }
    }
  }
}
