/** The key tree of web/src/features/redis/redisKeyHierarchy.ts. */
module RedisTree {
  import opened Sequences
  import opened Sorting
  import opened Text

  /** A JavaScript string: its UTF-16 code units. */
  type Str = seq<int>

  datatype Item = Item(key: Str, kind: Str, ttl: int)

  /** An internal node. `folders` is a JavaScript Map: its entries in insertion order. */
  datatype Internal = Internal(name: Str, prefix: Str, folders: seq<Internal>, keys: seq<Item>)

  datatype Tree = Folder(name: Str, prefix: Str, count: nat, children: seq<Tree>) | Leaf(item: Item, displayName: Str)

  // ---------------------------------------------------------------- insertion

  /** `folders.get(name)`, or -1. */
  function FindName(names: seq<Str>, name: Str): (i: int)
    ensures -1 <= i < |names|
    ensures i >= 0 ==> names[i] == name
    ensures i == -1 ==> name !in names
  {
    if names == [] then -1
    else if names[0] == name then 0
    else
      var i := FindName(names[1..], name);
      if i == -1 then -1 else i + 1
  }

  function Names(folders: seq<Internal>): (r: seq<Str>)
    ensures |r| == |folders| && forall i :: 0 <= i < |folders| ==> r[i] == folders[i].name
  {
    seq(|folders|, i requires 0 <= i < |folders| => folders[i].name)
  }

  function NewFolder(head: Str, prefixParts: seq<Str>, sep: Str): Internal {
    Internal(head, Join(prefixParts + [head], sep), [], [])
  }

  /** What `insertKey` makes of a node: one more key at the end of the path. */
  function Inserted(node: Internal, item: Item, parts: seq<Str>, prefixParts: seq<Str>, sep: Str): Internal
    requires parts != []
    decreases |parts|
  {
    if |parts| == 1 then node.(keys := node.keys + [item])
    else
      var i := FindName(Names(node.folders), parts[0]);
      var child := if i == -1 then NewFolder(parts[0], prefixParts, sep) else node.folders[i];
      var next := Inserted(child, item, parts[1..], prefixParts + [parts[0]], sep);
      node.(folders := if i == -1 then node.folders + [next] else node.folders[i := next])
  }

  /** The mutable node: its folders and keys grow in place. */
  class Node {
    const name: Str
    const prefix: Str
    var folders: seq<Node>
    var keys: seq<Item>
    ghost var Repr: set<object>

    ghost predicate Valid()
      reads this, Repr
      decreases Repr
    {
      && this in Repr
      && (forall i :: 0 <= i < |folders| ==> folders[i] in Repr && folders[i].Repr < Repr && this !in folders[i].Repr && folders[i].Valid())
      && forall i, j :: 0 <= i < j < |folders| ==> folders[i].Repr !! folders[j].Repr
    }

    /** The node and all below it as a value. */
    function Value(): (v: Internal)
      requires Valid()
      reads this, Repr
      ensures v.name == name && FolderNames() == Names(v.folders)
      decreases Repr
    {
      Internal(name, prefix, seq(|folders|, i requires 0 <= i < |folders| && Valid() reads this, Repr => folders[i].Value()), keys)
    }

    constructor (name: Str, prefix: Str)
      ensures Valid() && fresh(Repr) && Value() == Internal(name, prefix, [], [])
      ensures this.name == name && this.prefix == prefix
    {
      this.name := name;
      this.prefix := prefix;
      folders := [];
      keys := [];
      Repr := {this};
    }

    function FolderNames(): (r: seq<Str>)
      reads this
      ensures |r| == |folders| && forall i :: 0 <= i < |folders| ==> r[i] == folders[i].name
    {
      seq(|folders|, i requires 0 <= i < |folders| reads this => folders[i].name)
    }

    /** `insertKey`. */
    method InsertKey(item: Item, parts: seq<Str>, prefixParts: seq<Str>, sep: Str)
      requires Valid() && parts != []
      modifies Repr
      ensures Valid() && fresh(Repr - old(Repr))
      ensures Value() == Inserted(old(Value()), item, parts, prefixParts, sep)
      decreases |parts|, 0
    {
      if |parts| == 1 {
        AddKey(item);
        return;
      }
      var head, rest := parts[0], parts[1..];
      var at := FindName(FolderNames(), head);
      if at == -1 {
        InsertNew(head, item, rest, prefixParts, sep);
      } else {
        InsertBelow(at, item, rest, prefixParts + [head], sep);
      }
    }

    method AddKey(item: Item)
      requires Valid()
      modifies this
      ensures Valid() && Repr == old(Repr)
      ensures Value() == old(Value()).(keys := old(Value()).keys + [item])
    {
      keys := keys + [item];
    }

    /** A folder that is not there is made, and the key goes below it. */
    method InsertNew(head: Str, item: Item, parts: seq<Str>, prefixParts: seq<Str>, sep: Str)
      requires Valid() && parts != []
      modifies Repr
      ensures Valid() && fresh(Repr - old(Repr))
      ensures Value() == old(Value()).(folders := old(Value()).folders
                           + [Inserted(NewFolder(head, prefixParts, sep), item, parts, prefixParts + [head], sep)])
      decreases |parts|, 1
    {
      var child := new Node(head, Join(prefixParts + [head], sep));
      child.InsertKey(item, parts, prefixParts + [head], sep);
      AddFolder(child);
    }

    /** `folders.set` of a fresh child. */
    method AddFolder(child: Node)
      requires Valid() && child.Valid() && child.Repr !! Repr
      modifies this
      ensures Valid() && Repr == old(Repr) + child.Repr
      ensures Value() == old(Value()).(folders := old(Value()).folders + [old(child.Value())])
    {
      folders := folders + [child];
      Repr := Repr + child.Repr;
    }

    method InsertBelow(at: nat, item: Item, parts: seq<Str>, prefixParts: seq<Str>, sep: Str)
      requires Valid() && parts != [] && at < |folders|
      modifies Repr
      ensures Valid() && fresh(Repr - old(Repr))
      ensures Value() == old(Value()).(folders := old(Value()).folders[at := Inserted(old(Value()).folders[at], item, parts, prefixParts, sep)])
      decreases |parts|, 1
    {
      var child := folders[at];
      ghost var was := Value();
      child.InsertKey(item, parts, prefixParts, sep);
      forall i | 0 <= i < |folders| && i != at
        ensures folders[i].Repr == old(folders[i].Repr) && folders[i].Repr !! child.Repr
        ensures folders[i].Valid() && folders[i].Value() == was.folders[i]
      {
        assert old(folders[i].Repr) !! old(child.Repr);
      }
      Absorb(at, was.folders[at := child.Value()]);
    }

    /** Child `at` has grown: the node is valid again once its footprint is part of this one's. */
    ghost method Absorb(at: nat, values: seq<Internal>)
      requires at < |folders| == |values| && this in Repr
      requires forall i :: 0 <= i < |folders| ==> this !in folders[i].Repr && folders[i].Valid() && folders[i].Value() == values[i]
      requires forall i :: 0 <= i < |folders| && i != at ==> folders[i].Repr <= Repr
      requires forall i, j :: 0 <= i < j < |folders| ==> folders[i].Repr !! folders[j].Repr
      modifies this`Repr
      ensures Repr == old(Repr) + folders[at].Repr
      ensures Valid() && Value() == Internal(name, prefix, values, keys)
    {
      Repr := Repr + folders[at].Repr;
      assert Value().folders == values;
    }
  }

  // ---------------------------------------------------------------- the displayed tree

  /** `countKeys`. */
  function CountKeys(node: Internal): nat {
    |node.keys| + CountAll(node.folders)
  }

  function CountAll(folders: seq<Internal>): nat {
    if folders == [] then 0 else CountKeys(folders[0]) + CountAll(folders[1..])
  }

  method CountNode(node: Internal) returns (total: nat)
    ensures total == CountKeys(node)
    decreases node
  {
    total := |node.keys|;
    for i := 0 to |node.folders|
      invariant total + CountAll(node.folders[i..]) == CountKeys(node)
    {
      var child := CountNode(node.folders[i]);
      assert node.folders[i..][1..] == node.folders[i + 1..];
      total := total + child;
    }
  }

  /** The last occurrence of `sep`, or -1. */
  function LastIndexFrom(s: Str, sep: Str, from: int): (i: int)
    requires -1 <= from <= |s|
    ensures -1 <= i <= from && (i == -1 || OccursAt(s, sep, i))
    ensures forall j :: i < j <= from ==> !OccursAt(s, sep, j)
    decreases from + 1
  {
    if from == -1 || OccursAt(s, sep, from) then from else LastIndexFrom(s, sep, from - 1)
  }

  function LastIndexOf(s: Str, sep: Str): (i: int)
    ensures i == -1 || OccursAt(s, sep, i)
    ensures forall j :: i < j ==> !OccursAt(s, sep, j)
  {
    LastIndexFrom(s, sep, |s|)
  }

  function DisplayName(key: Str, sep: Str): Str {
    if !Contains(key, sep) then key
    else if LastIndexOf(key, sep) + 1 <= |key| then key[LastIndexOf(key, sep) + 1..]
    else []
  }

  function ByName(le: (Str, Str) -> bool): (Internal, Internal) -> bool {
    (a: Internal, b: Internal) => le(a.name, b.name)
  }

  function ByKey(le: (Str, Str) -> bool): (Item, Item) -> bool {
    (a: Item, b: Item) => le(a.key, b.key)
  }

  function Leaves(items: seq<Item>, sep: Str): (r: seq<Tree>)
    ensures |r| == |items|
    ensures forall i :: 0 <= i < |items| ==> r[i] == Leaf(items[i], DisplayName(items[i].key, sep))
  {
    if items == [] then [] else [Leaf(items[0], DisplayName(items[0].key, sep))] + Leaves(items[1..], sep)
  }

  /** `toTreeNodes`: the folders by name, then the keys. */
  function ToTree(node: Internal, sep: Str, le: (Str, Str) -> bool): seq<Tree>
    decreases node, 1
  {
    var folders := Sorted(node.folders, ByName(le));
    assert forall f :: f in folders ==> f in multiset(node.folders);
    FolderTrees(node, folders, sep, le) + Leaves(Sorted(node.keys, ByKey(le)), sep)
  }

  function FolderTrees(node: Internal, folders: seq<Internal>, sep: Str, le: (Str, Str) -> bool): (r: seq<Tree>)
    requires forall f :: f in folders ==> f in node.folders
    ensures |r| == |folders|
    decreases node, 0, |folders|
  {
    if folders == [] then []
    else
      assert folders[0] in node.folders;
      [Folder(folders[0].name, folders[0].prefix, CountKeys(folders[0]), ToTree(folders[0], sep, le))]
      + FolderTrees(node, folders[1..], sep, le)
  }

  method ToTreeNodes(node: Internal, sep: Str, le: (Str, Str) -> bool) returns (result: seq<Tree>)
    ensures result == ToTree(node, sep, le)
    decreases node, 1
  {
    var folders := Sorted(node.folders, ByName(le));
    MultisetMembers(folders, node.folders);
    result := FolderNodes(node, folders, sep, le);
    var leaves := LeafNodes(Sorted(node.keys, ByKey(le)), sep);
    result := result + leaves;
  }

  method LeafNodes(keys: seq<Item>, sep: Str) returns (result: seq<Tree>)
    ensures result == Leaves(keys, sep)
  {
    result := [];
    for i := 0 to |keys|
      invariant |result| == i && forall k :: 0 <= k < i ==> result[k] == Leaf(keys[k], DisplayName(keys[k].key, sep))
    {
      result := result + [Leaf(keys[i], DisplayName(keys[i].key, sep))];
    }
  }

  method FolderNodes(node: Internal, folders: seq<Internal>, sep: Str, le: (Str, Str) -> bool) returns (result: seq<Tree>)
    requires forall f :: f in folders ==> f in node.folders
    ensures result == FolderTrees(node, folders, sep, le)
    decreases node, 0
  {
    result := [];
    for i := 0 to |folders|
      invariant result + FolderTrees(node, folders[i..], sep, le) == FolderTrees(node, folders, sep, le)
    {
      assert folders[i] in folders;
      var count := CountNode(folders[i]);
      var children := ToTreeNodes(folders[i], sep, le);
      var tree := Folder(folders[i].name, folders[i].prefix, count, children);
      assert folders[i..][1..] == folders[i + 1..];
      Reassociate(result, [tree], FolderTrees(node, folders[i + 1..], sep, le));
      result := result + [tree];
    }
  }

  function Root(): Internal {
    Internal([], [], [], [])
  }

  function CodeUnits(s: Str): (r: seq<Str>)
    ensures |r| == |s|
  {
    seq(|s|, i requires 0 <= i < |s| => [s[i]])
  }

  /** JavaScript's `split`: an empty separator parts every code unit from the next. */
  function Parts(key: Str, sep: Str): (parts: seq<Str>)
    ensures parts == [] <==> sep == [] && key == []
  {
    if sep == [] then CodeUnits(key) else Split(key, sep)
  }

  /** Every key has a part. For the one that has none `insertKey` calls itself without end. */
  predicate HaveParts(keys: seq<Item>, sep: Str) {
    sep != [] || forall i :: 0 <= i < |keys| ==> keys[i].key != []
  }

  /** The nodes after inserting the keys in order. */
  function Filled(keys: seq<Item>, sep: Str): Internal
    requires HaveParts(keys, sep)
  {
    if keys == [] then Root()
    else Inserted(Filled(keys[..|keys| - 1], sep), keys[|keys| - 1], Parts(keys[|keys| - 1].key, sep), [], sep)
  }

  lemma FilledStep(keys: seq<Item>, i: nat, sep: Str)
    requires HaveParts(keys, sep) && i < |keys|
    ensures HaveParts(keys[..i], sep) && HaveParts(keys[..i + 1], sep) && Parts(keys[i].key, sep) != []
    ensures Filled(keys[..i + 1], sep) == Inserted(Filled(keys[..i], sep), keys[i], Parts(keys[i].key, sep), [], sep)
  {
    assert keys[..i + 1][..i] == keys[..i];
  }

  method BuildRedisKeyTree(keys: seq<Item>, sep: Str, le: (Str, Str) -> bool) returns (tree: seq<Tree>)
    requires HaveParts(keys, sep)
    ensures tree == ToTree(Filled(keys, sep), sep, le)
  {
    var root := new Node([], []);
    for i := 0 to |keys|
      invariant HaveParts(keys[..i], sep)
      invariant root.Valid() && fresh(root.Repr) && root.Value() == Filled(keys[..i], sep)
    {
      FilledStep(keys, i, sep);
      root.InsertKey(keys[i], Parts(keys[i].key, sep), [], sep);
    }
    assert keys[..|keys|] == keys;
    tree := ToTreeNodes(root.Value(), sep, le);
  }

  // ---------------------------------------------------------------- the folders of a key

  /** The prefixes of the first `n` folders on the way. */
  function PrefixesUpTo(parts: seq<Str>, sep: Str, n: nat): (r: seq<Str>)
    requires n <= |parts|
    ensures |r| == n
  {
    if n == 0 then [] else PrefixesUpTo(parts, sep, n - 1) + [Join(parts[..n], sep)]
  }

  function FolderPath(key: Str, sep: Str): seq<Str> {
    var parts := Parts(key, sep);
    if parts == [] then [] else PrefixesUpTo(parts, sep, |parts| - 1)
  }

  method FolderPathForKey(key: Str, sep: Str) returns (prefixes: seq<Str>)
    ensures prefixes == FolderPath(key, sep)
  {
    var parts := Parts(key, sep);
    prefixes := [];
    if |parts| <= 1 {
      return;
    }
    var index := 0;
    while index < |parts| - 1
      invariant 0 <= index <= |parts| - 1 && prefixes == PrefixesUpTo(parts, sep, index)
    {
      prefixes := prefixes + [Join(parts[..index + 1], sep)];
      index := index + 1;
    }
  }

  // ---------------------------------------------------------------- where the keys are

  /** A key at its place: the prefixes of the folders around it. */
  datatype Entry = Entry(path: seq<Str>, item: Item)

  function Own(keys: seq<Item>, path: seq<Str>): (r: seq<Entry>)
    ensures |r| == |keys|
  {
    seq(|keys|, i requires 0 <= i < |keys| => Entry(path, keys[i]))
  }

  function EntriesOf(node: Internal, path: seq<Str>): multiset<Entry> {
    multiset(Own(node.keys, path)) + Entries(node.folders, path)
  }

  function Entries(folders: seq<Internal>, path: seq<Str>): multiset<Entry> {
    if folders == [] then multiset{} else EntriesOf(folders[0], path + [folders[0].prefix]) + Entries(folders[1..], path)
  }

  lemma {:induction false} EntriesAppend(a: seq<Internal>, b: seq<Internal>, path: seq<Str>)
    ensures Entries(a + b, path) == Entries(a, path) + Entries(b, path)
  {
    if a == [] {
      assert a + b == b;
    } else {
      assert (a + b)[1..] == a[1..] + b;
      EntriesAppend(a[1..], b, path);
    }
  }

  lemma EntriesOne(f: Internal, path: seq<Str>)
    ensures Entries([f], path) == EntriesOf(f, path + [f.prefix])
  {
    assert [f][1..] == [];
  }

  lemma EntriesAt(folders: seq<Internal>, i: nat, path: seq<Str>)
    requires i < |folders|
    ensures Entries(folders, path)
         == Entries(folders[..i], path) + EntriesOf(folders[i], path + [folders[i].prefix]) + Entries(folders[i + 1..], path)
  {
    assert folders == folders[..i] + ([folders[i]] + folders[i + 1..]);
    EntriesAppend(folders[..i], [folders[i]] + folders[i + 1..], path);
    EntriesAppend([folders[i]], folders[i + 1..], path);
    EntriesOne(folders[i], path);
  }

  lemma EntriesReplaced(folders: seq<Internal>, i: nat, next: Internal, path: seq<Str>, entry: Entry)
    requires i < |folders| && next.prefix == folders[i].prefix
    requires EntriesOf(next, path + [next.prefix]) == EntriesOf(folders[i], path + [next.prefix]) + multiset{entry}
    ensures Entries(folders[i := next], path) == Entries(folders, path) + multiset{entry}
  {
    EntriesAt(folders, i, path);
    EntriesAt(folders[i := next], i, path);
    assert folders[i := next][..i] == folders[..i] && folders[i := next][i + 1..] == folders[i + 1..];
  }

  // ---------------------------------------------------------------- folders are named after their place

  /** Below the parts `pp`: sibling names differ and a folder's prefix spells its place. */
  ghost predicate Placed(folders: seq<Internal>, pp: seq<Str>, sep: Str) {
    && (forall i, j :: 0 <= i < j < |folders| ==> folders[i].name != folders[j].name)
    && forall i :: 0 <= i < |folders| ==>
         folders[i].prefix == Join(pp + [folders[i].name], sep) && Placed(folders[i].folders, pp + [folders[i].name], sep)
  }

  lemma {:induction false} InsertedPlaced(node: Internal, item: Item, parts: seq<Str>, pp: seq<Str>, sep: Str)
    requires parts != [] && Placed(node.folders, pp, sep)
    ensures var next := Inserted(node, item, parts, pp, sep);
            next.name == node.name && next.prefix == node.prefix && Placed(next.folders, pp, sep)
    decreases |parts|
  {
    if |parts| > 1 {
      var i := FindName(Names(node.folders), parts[0]);
      var child := if i == -1 then NewFolder(parts[0], pp, sep) else node.folders[i];
      InsertedPlaced(child, item, parts[1..], pp + [parts[0]], sep);
      var next := Inserted(child, item, parts[1..], pp + [parts[0]], sep);
      if i == -1 {
        forall k | 0 <= k < |node.folders|
          ensures node.folders[k].name != next.name
        {
          assert Names(node.folders)[k] in Names(node.folders);
        }
      }
    }
  }

  /** The prefixes passed on the way to the last of `parts`, starting below `pp`. */
  function Way(pp: seq<Str>, parts: seq<Str>, sep: Str): seq<Str>
    requires parts != []
    decreases |parts|
  {
    if |parts| == 1 then [] else [Join(pp + [parts[0]], sep)] + Way(pp + [parts[0]], parts[1..], sep)
  }

  /** Insertion adds one entry, at the end of the way, and leaves every other where it was. */
  lemma {:induction false} InsertedEntries(node: Internal, item: Item, parts: seq<Str>, pp: seq<Str>, sep: Str, path: seq<Str>)
    requires parts != [] && Placed(node.folders, pp, sep)
    ensures EntriesOf(Inserted(node, item, parts, pp, sep), path)
         == EntriesOf(node, path) + multiset{Entry(path + Way(pp, parts, sep), item)}
    decreases |parts|
  {
    if |parts| == 1 {
      OwnAppend(node.keys, [item], path);
      assert path + Way(pp, parts, sep) == path;
    } else {
      var i := FindName(Names(node.folders), parts[0]);
      var child := if i == -1 then NewFolder(parts[0], pp, sep) else node.folders[i];
      var below := path + [child.prefix];
      InsertedPlaced(child, item, parts[1..], pp + [parts[0]], sep);
      InsertedEntries(child, item, parts[1..], pp + [parts[0]], sep, below);
      Reassociate(path, [child.prefix], Way(pp + [parts[0]], parts[1..], sep));
      ChildEntries(node, i, child, Inserted(child, item, parts[1..], pp + [parts[0]], sep), path, Entry(path + Way(pp, parts, sep), item));
    }
  }

  /** A child that gains an entry gives it to its node. */
  lemma ChildEntries(node: Internal, i: int, child: Internal, next: Internal, path: seq<Str>, entry: Entry)
    requires -1 <= i < |node.folders| && next.prefix == child.prefix
    requires if i == -1 then child.keys == [] && child.folders == [] else child == node.folders[i]
    requires EntriesOf(next, path + [child.prefix]) == EntriesOf(child, path + [child.prefix]) + multiset{entry}
    ensures EntriesOf(node.(folders := if i == -1 then node.folders + [next] else node.folders[i := next]), path)
         == EntriesOf(node, path) + multiset{entry}
  {
    if i == -1 {
      NoEntries(child, path + [child.prefix]);
      EntriesAppend(node.folders, [next], path);
      EntriesOne(next, path);
      WithFolders(node, node.folders + [next], path, entry);
    } else {
      EntriesReplaced(node.folders, i, next, path, entry);
      WithFolders(node, node.folders[i := next], path, entry);
    }
  }

  lemma WithFolders(node: Internal, folders: seq<Internal>, path: seq<Str>, entry: Entry)
    requires Entries(folders, path) == Entries(node.folders, path) + multiset{entry}
    ensures EntriesOf(node.(folders := folders), path) == EntriesOf(node, path) + multiset{entry}
  {
  }

  lemma NoEntries(node: Internal, path: seq<Str>)
    requires node.keys == [] && node.folders == []
    ensures EntriesOf(node, path) == multiset{}
  {
  }

  lemma {:induction false} WayIsPrefixes(all: seq<Str>, k: nat, sep: Str)
    requires k < |all|
    ensures PrefixesUpTo(all, sep, k) + Way(all[..k], all[k..], sep) == PrefixesUpTo(all, sep, |all| - 1)
    decreases |all| - k
  {
    if k < |all| - 1 {
      WayIsPrefixes(all, k + 1, sep);
      assert all[..k] + [all[k..][0]] == all[..k + 1];
      assert all[k..][1..] == all[k + 1..];
      Reassociate(PrefixesUpTo(all, sep, k), [Join(all[..k + 1], sep)], Way(all[..k + 1], all[k + 1..], sep));
    }
  }

  lemma WayOfKey(key: Str, sep: Str)
    requires sep != [] || key != []
    ensures [] + Way([], Parts(key, sep), sep) == FolderPath(key, sep)
  {
    var parts := Parts(key, sep);
    WayIsPrefixes(parts, 0, sep);
    assert parts[..0] == [] && parts[0..] == parts;
  }

  /** Each key under exactly the folders `folderPathForKey` names. */
  function Expected(keys: seq<Item>, sep: Str): (r: seq<Entry>)
    ensures |r| == |keys|
  {
    seq(|keys|, i requires 0 <= i < |keys| => Entry(FolderPath(keys[i].key, sep), keys[i]))
  }

  lemma {:induction false} FilledEntries(keys: seq<Item>, sep: Str)
    requires HaveParts(keys, sep)
    ensures Placed(Filled(keys, sep).folders, [], sep)
    ensures EntriesOf(Filled(keys, sep), []) == multiset(Expected(keys, sep))
  {
    if keys != [] {
      var before, last := keys[..|keys| - 1], keys[|keys| - 1];
      FilledEntries(before, sep);
      WayOfKey(last.key, sep);
      OneMoreKey(Filled(before, sep), last, Parts(last.key, sep), sep, FolderPath(last.key, sep), Expected(before, sep));
      ExpectedSnoc(before, last, sep);
      assert before + [last] == keys;
    }
  }

  lemma OneMoreKey(node: Internal, item: Item, parts: seq<Str>, sep: Str, path: seq<Str>, before: seq<Entry>)
    requires parts != [] && Placed(node.folders, [], sep) && [] + Way([], parts, sep) == path
    requires EntriesOf(node, []) == multiset(before)
    ensures Placed(Inserted(node, item, parts, [], sep).folders, [], sep)
    ensures EntriesOf(Inserted(node, item, parts, [], sep), []) == multiset(before + [Entry(path, item)])
  {
    InsertedPlaced(node, item, parts, [], sep);
    InsertedEntries(node, item, parts, [], sep, []);
  }

  lemma ExpectedSnoc(before: seq<Item>, last: Item, sep: Str)
    ensures Expected(before + [last], sep) == Expected(before, sep) + [Entry(FolderPath(last.key, sep), last)]
  {
  }

  // ---------------------------------------------------------------- the displayed tree has the same entries

  function TreeEntries(tree: seq<Tree>, path: seq<Str>): multiset<Entry> {
    if tree == [] then multiset{} else
      (match tree[0]
       case Leaf(item, _) => multiset{Entry(path, item)}
       case Folder(_, prefix, _, children) => TreeEntries(children, path + [prefix]))
      + TreeEntries(tree[1..], path)
  }

  lemma {:induction false} TreeEntriesAppend(a: seq<Tree>, b: seq<Tree>, path: seq<Str>)
    ensures TreeEntries(a + b, path) == TreeEntries(a, path) + TreeEntries(b, path)
  {
    if a == [] {
      assert a + b == b;
    } else {
      assert (a + b)[1..] == a[1..] + b;
      TreeEntriesAppend(a[1..], b, path);
    }
  }

  lemma OwnCons(items: seq<Item>, path: seq<Str>)
    requires items != []
    ensures Own(items, path) == [Entry(path, items[0])] + Own(items[1..], path)
  {
  }

  lemma TreeEntriesCons(first: Tree, rest: seq<Tree>, path: seq<Str>)
    ensures TreeEntries([first] + rest, path)
         == (if first.Leaf? then multiset{Entry(path, first.item)} else TreeEntries(first.children, path + [first.prefix]))
            + TreeEntries(rest, path)
  {
    assert ([first] + rest)[1..] == rest;
  }

  lemma {:induction false} LeafEntries(items: seq<Item>, sep: Str, path: seq<Str>)
    ensures TreeEntries(Leaves(items, sep), path) == multiset(Own(items, path))
  {
    if items != [] {
      LeafEntries(items[1..], sep, path);
      OwnCons(items, path);
      TreeEntriesCons(Leaf(items[0], DisplayName(items[0].key, sep)), Leaves(items[1..], sep), path);
    }
  }

  lemma OwnAppend(a: seq<Item>, b: seq<Item>, path: seq<Str>)
    ensures Own(a + b, path) == Own(a, path) + Own(b, path)
  {
  }

  lemma {:induction false} OwnPermuted(a: seq<Item>, b: seq<Item>, path: seq<Str>)
    requires multiset(a) == multiset(b)
    ensures multiset(Own(a, path)) == multiset(Own(b, path))
    decreases |a|
  {
    MultisetMembers(a, b);
    if a != [] {
      var i := PlaceOf(a, b, a[0]);
      TailMultiset(a);
      OwnPermuted(a[1..], b[..i] + b[i + 1..], path);
      OwnAppend(b[..i], b[i + 1..], path);
      OwnAppend(b[..i], [a[0]] + b[i + 1..], path);
      OwnAppend([a[0]], b[i + 1..], path);
      OwnAppend([a[0]], a[1..], path);
      assert a == [a[0]] + a[1..];
    }
  }

  lemma {:induction false} EntriesPermuted(a: seq<Internal>, b: seq<Internal>, path: seq<Str>)
    requires multiset(a) == multiset(b)
    ensures Entries(a, path) == Entries(b, path)
    decreases |a|
  {
    MultisetMembers(a, b);
    if a != [] {
      var i := PlaceOf(a, b, a[0]);
      TailMultiset(a);
      EntriesPermuted(a[1..], b[..i] + b[i + 1..], path);
      EntriesAt(b, i, path);
      EntriesAppend(b[..i], b[i + 1..], path);
    }
  }

  lemma {:induction false} ToTreeEntries(node: Internal, sep: Str, le: (Str, Str) -> bool, path: seq<Str>)
    ensures TreeEntries(ToTree(node, sep, le), path) == EntriesOf(node, path)
    decreases node, 1
  {
    var folders, keys := Sorted(node.folders, ByName(le)), Sorted(node.keys, ByKey(le));
    MultisetMembers(folders, node.folders);
    TreeEntriesAppend(FolderTrees(node, folders, sep, le), Leaves(keys, sep), path);
    FolderTreeEntries(node, folders, sep, le, path);
    LeafEntries(keys, sep, path);
    EntriesPermuted(folders, node.folders, path);
    OwnPermuted(keys, node.keys, path);
  }

  lemma {:induction false} FolderTreeEntries(node: Internal, folders: seq<Internal>, sep: Str, le: (Str, Str) -> bool, path: seq<Str>)
    requires forall f :: f in folders ==> f in node.folders
    ensures TreeEntries(FolderTrees(node, folders, sep, le), path) == Entries(folders, path)
    decreases node, 0, |folders|
  {
    if folders != [] {
      var f := folders[0];
      assert f in folders;
      ToTreeEntries(f, sep, le, path + [f.prefix]);
      FolderTreeEntries(node, folders[1..], sep, le, path);
      TreeEntriesCons(Folder(f.name, f.prefix, CountKeys(f), ToTree(f, sep, le)), FolderTrees(node, folders[1..], sep, le), path);
    }
  }

  // ---------------------------------------------------------------- counts and order

  /** Every folder counts the leaves below it; sibling folders have different names and are in
      order, before the keys, which are in order too and shown by their display names. */
  ghost predicate Tidy(tree: seq<Tree>, sep: Str, le: (Str, Str) -> bool) {
    && (forall i :: 0 <= i < |tree| && tree[i].Folder? ==> TidyFolder(tree[i], sep, le))
    && (forall i :: 0 <= i < |tree| && tree[i].Leaf? ==> tree[i].displayName == DisplayName(tree[i].item.key, sep))
    && (forall i, j :: 0 <= i < j < |tree| && tree[j].Folder? ==>
          tree[i].Folder? && tree[i].name != tree[j].name && le(tree[i].name, tree[j].name))
    && forall i, j :: 0 <= i < j < |tree| && tree[i].Leaf? && tree[j].Leaf? ==> le(tree[i].item.key, tree[j].item.key)
  }

  ghost predicate TidyFolder(t: Tree, sep: Str, le: (Str, Str) -> bool) {
    t.Folder? && t.count == |TreeEntries(t.children, [])| && Tidy(t.children, sep, le)
  }

  lemma {:induction false} CountIsEntries(node: Internal, path: seq<Str>)
    ensures CountKeys(node) == |EntriesOf(node, path)|
    decreases node, 1
  {
    CountAllIsEntries(node.folders, path);
    assert |multiset(Own(node.keys, path))| == |node.keys|;
  }

  lemma {:induction false} CountAllIsEntries(folders: seq<Internal>, path: seq<Str>)
    ensures CountAll(folders) == |Entries(folders, path)|
    decreases folders, 0
  {
    if folders != [] {
      CountIsEntries(folders[0], path + [folders[0].prefix]);
      CountAllIsEntries(folders[1..], path);
    }
  }

  ghost predicate DistinctNames(folders: seq<Internal>) {
    && (forall i, j :: 0 <= i < j < |folders| ==> folders[i].name != folders[j].name)
    && forall i :: 0 <= i < |folders| ==> DistinctNames(folders[i].folders)
  }

  lemma {:induction false} PlacedDistinct(folders: seq<Internal>, pp: seq<Str>, sep: Str)
    requires Placed(folders, pp, sep)
    ensures DistinctNames(folders)
    decreases folders
  {
    forall i | 0 <= i < |folders|
      ensures DistinctNames(folders[i].folders)
    {
      PlacedDistinct(folders[i].folders, pp + [folders[i].name], sep);
    }
  }

  lemma ByNameIsOrder(le: (Str, Str) -> bool)
    requires TotalPreorder(le)
    ensures TotalPreorder(ByName(le))
  {
    assert forall a, b :: ByName(le)(a, b) == le(a.name, b.name);
    assert forall a: Internal, b: Internal :: le(a.name, b.name) || le(b.name, a.name);
  }

  lemma ByKeyIsOrder(le: (Str, Str) -> bool)
    requires TotalPreorder(le)
    ensures TotalPreorder(ByKey(le))
  {
    assert forall a, b :: ByKey(le)(a, b) == le(a.key, b.key);
    assert forall a: Item, b: Item :: le(a.key, b.key) || le(b.key, a.key);
  }

  ghost predicate NamesInOrder(folders: seq<Internal>, le: (Str, Str) -> bool) {
    forall i, j :: 0 <= i < j < |folders| ==> folders[i].name != folders[j].name && le(folders[i].name, folders[j].name)
  }

  ghost predicate KeysInOrder(keys: seq<Item>, le: (Str, Str) -> bool) {
    forall i, j :: 0 <= i < j < |keys| ==> le(keys[i].key, keys[j].key)
  }

  lemma SortedNames(folders: seq<Internal>, le: (Str, Str) -> bool)
    requires TotalPreorder(le) && DistinctNames(folders)
    ensures NamesInOrder(Sorted(folders, ByName(le)), le)
  {
    var sorted := Sorted(folders, ByName(le));
    ByNameIsOrder(le);
    SortedIsSorted(folders, ByName(le));
    forall i, j | 0 <= i < j < |sorted|
      ensures sorted[i].name != sorted[j].name && le(sorted[i].name, sorted[j].name)
    {
      assert ByName(le)(sorted[i], sorted[j]);
      TwoPlaces(sorted, folders, i, j);
    }
  }

  lemma TwoPlaces(a: seq<Internal>, b: seq<Internal>, i: nat, j: nat)
    requires multiset(a) == multiset(b) && i < j < |a|
    requires forall k, l :: 0 <= k < l < |b| ==> b[k].name != b[l].name
    ensures a[i].name != a[j].name
  {
    assert a[i] in a && a[j] in a;
    var k := PlaceOf(a, b, a[i]);
    var l := PlaceOf(a, b, a[j]);
    if a[i] == a[j] {
      Twice(a, i, j);
    }
    Occurs(b, a[i]);
  }

  /** The tree of a node, from its sorted folders and keys. */
  lemma ToTreeIs(node: Internal, sep: Str, le: (Str, Str) -> bool) returns (folders: seq<Internal>, keys: seq<Item>)
    requires TotalPreorder(le) && DistinctNames(node.folders)
    ensures forall f :: f in folders ==> f in node.folders
    ensures NamesInOrder(folders, le) && KeysInOrder(keys, le)
    ensures ToTree(node, sep, le) == FolderTrees(node, folders, sep, le) + Leaves(keys, sep)
  {
    folders, keys := Sorted(node.folders, ByName(le)), Sorted(node.keys, ByKey(le));
    MultisetMembers(folders, node.folders);
    SortedNames(node.folders, le);
    SortedKeys(node.keys, le);
  }

  lemma {:induction false} ToTreeTidy(node: Internal, sep: Str, le: (Str, Str) -> bool)
    requires TotalPreorder(le) && DistinctNames(node.folders)
    ensures Tidy(ToTree(node, sep, le), sep, le)
    decreases node, 1
  {
    var folders, keys := ToTreeIs(node, sep, le);
    FolderTreesTidy(node, folders, sep, le);
    TidyParts(folders, FolderTrees(node, folders, sep, le), keys, Leaves(keys, sep), sep, le);
  }

  ghost predicate TidyFolders(trees: seq<Tree>, folders: seq<Internal>, sep: Str, le: (Str, Str) -> bool) {
    |trees| == |folders| && forall i :: 0 <= i < |trees| ==> TidyFolder(trees[i], sep, le) && trees[i].name == folders[i].name
  }

  lemma TidyFoldersCons(tree: Tree, trees: seq<Tree>, f: Internal, folders: seq<Internal>, sep: Str, le: (Str, Str) -> bool)
    requires TidyFolder(tree, sep, le) && tree.name == f.name && TidyFolders(trees, folders, sep, le)
    ensures TidyFolders([tree] + trees, [f] + folders, sep, le)
  {
  }

  lemma {:induction false} FolderTreesTidy(node: Internal, folders: seq<Internal>, sep: Str, le: (Str, Str) -> bool)
    requires TotalPreorder(le) && DistinctNames(node.folders)
    requires forall f :: f in folders ==> f in node.folders
    ensures TidyFolders(FolderTrees(node, folders, sep, le), folders, sep, le)
    decreases node, 0, |folders|
  {
    if folders != [] {
      var f := folders[0];
      assert f in folders;
      OneFolderTidy(node, f, sep, le);
      FolderTreesTidy(node, folders[1..], sep, le);
      TidyFoldersCons(Folder(f.name, f.prefix, CountKeys(f), ToTree(f, sep, le)), FolderTrees(node, folders[1..], sep, le), f, folders[1..], sep, le);
      assert [f] + folders[1..] == folders;
    }
  }

  lemma {:induction false} OneFolderTidy(node: Internal, f: Internal, sep: Str, le: (Str, Str) -> bool)
    requires TotalPreorder(le) && DistinctNames(node.folders) && f in node.folders
    ensures TidyFolder(Folder(f.name, f.prefix, CountKeys(f), ToTree(f, sep, le)), sep, le)
    decreases node, 0, 0
  {
    ToTreeTidy(f, sep, le);
    ToTreeEntries(f, sep, le, []);
    CountIsEntries(f, []);
  }

  lemma SortedKeys(items: seq<Item>, le: (Str, Str) -> bool)
    requires TotalPreorder(le)
    ensures KeysInOrder(Sorted(items, ByKey(le)), le)
  {
    var sorted := Sorted(items, ByKey(le));
    ByKeyIsOrder(le);
    SortedIsSorted(items, ByKey(le));
    forall i, j | 0 <= i < j < |sorted|
      ensures le(sorted[i].key, sorted[j].key)
    {
      assert ByKey(le)(sorted[i], sorted[j]);
    }
  }

  lemma TidyParts(folders: seq<Internal>, trees: seq<Tree>, keys: seq<Item>, leaves: seq<Tree>, sep: Str, le: (Str, Str) -> bool)
    requires TidyFolders(trees, folders, sep, le) && NamesInOrder(folders, le) && KeysInOrder(keys, le) && |leaves| == |keys|
    requires forall i :: 0 <= i < |leaves| ==> leaves[i] == Leaf(keys[i], DisplayName(keys[i].key, sep))
    ensures Tidy(trees + leaves, sep, le)
  {
  }

  /** The tree holds each key exactly once, under exactly the folders its path names, and is
      tidy: counts, distinct sorted folder names, sorted keys. */
  lemma TreeHoldsKeys(keys: seq<Item>, sep: Str, le: (Str, Str) -> bool)
    requires HaveParts(keys, sep) && TotalPreorder(le)
    ensures var tree := ToTree(Filled(keys, sep), sep, le);
            TreeEntries(tree, []) == multiset(Expected(keys, sep)) && Tidy(tree, sep, le)
  {
    var root := Filled(keys, sep);
    FilledEntries(keys, sep);
    ToTreeEntries(root, sep, le, []);
    PlacedDistinct(root.folders, [], sep);
    ToTreeTidy(root, sep, le);
  }

  // ---------------------------------------------------------------- display names

  lemma {:induction false} JoinSnoc(parts: seq<Str>, last: Str, sep: Str)
    requires parts != []
    ensures Join(parts + [last], sep) == Join(parts, sep) + sep + last
  {
    if |parts| > 1 {
      assert (parts + [last])[1..] == parts[1..] + [last];
      JoinSnoc(parts[1..], last, sep);
      assert parts[0] + sep + (Join(parts[1..], sep) + sep + last) == (parts[0] + sep + Join(parts[1..], sep)) + sep + last;
    }
  }

  lemma PathEnd(parts: seq<Str>, sep: Str)
    requires |parts| > 1
    ensures PrefixesUpTo(parts, sep, |parts| - 1) != []
    ensures Last(PrefixesUpTo(parts, sep, |parts| - 1)) == Join(Init(parts), sep)
  {
  }

  lemma SeveralParts(key: Str, sep: Str)
    requires sep != [] && Contains(key, sep)
    ensures |Split(key, sep)| > 1
  {
  }

  lemma JoinEnds(parts: seq<Str>, sep: Str)
    requires |parts| > 1
    ensures Join(parts, sep) == Join(Init(parts), sep) + sep + Last(parts)
  {
    assert parts == Init(parts) + [Last(parts)];
    JoinSnoc(Init(parts), Last(parts), sep);
  }

  /** A key with the separator is its innermost folder, the separator and its last part. */
  lemma KeyParts(key: Str, sep: Str) returns (folder: Str, last: Str)
    requires sep != [] && Contains(key, sep)
    ensures FolderPath(key, sep) != [] && Last(FolderPath(key, sep)) == folder
    ensures key == folder + sep + last && IndexOf(last, sep) == -1
  {
    SeveralParts(key, sep);
    JoinSplit(key, sep);
    SplitPieces(key, sep);
    PathEnd(Split(key, sep), sep);
    JoinEnds(Split(key, sep), sep);
    folder, last := Join(Init(Split(key, sep)), sep), Last(Split(key, sep));
  }

  lemma {:induction false} JoinCodeUnits(s: Str)
    ensures Join(CodeUnits(s), []) == s
  {
    if |s| > 1 {
      JoinCodeUnits(s[1..]);
      assert CodeUnits(s)[1..] == CodeUnits(s[1..]);
    }
  }

  /** With an empty separator the innermost folder is the key without its last code unit. */
  lemma NoSeparator(key: Str)
    requires FolderPath(key, []) != []
    ensures |Last(FolderPath(key, []))| == |key| - 1 && LastIndexOf(key, []) == |key| && DisplayName(key, []) == []
  {
    PathEnd(CodeUnits(key), []);
    assert Init(CodeUnits(key)) == CodeUnits(Init(key));
    JoinCodeUnits(Init(key));
    assert OccursAt(key, [], 0) && OccursAt(key, [], |key|);
  }

  /** Inside a folder, prefix, separator and display name give the key back exactly when the
      last occurrence of the separator ends one separator's length after it starts to be
      skipped. */
  lemma DisplayNameExactly(key: Str, sep: Str)
    requires Contains(key, sep) && (sep == [] ==> FolderPath(key, sep) != [])
    ensures FolderPath(key, sep) != []
    ensures Last(FolderPath(key, sep)) + sep + DisplayName(key, sep) == key
       <==> LastIndexOf(key, sep) + 1 == |Last(FolderPath(key, sep))| + |sep|
  {
    if sep == [] {
      NoSeparator(key);
      assert |Last(FolderPath(key, sep)) + sep + DisplayName(key, sep)| != |key|;
    } else {
      var folder, last := KeyParts(key, sep);
      assert OccursAt(key, sep, IndexOf(key, sep));
      var at := LastIndexOf(key, sep);
      assert at != -1;
      if at + 1 == |folder| + |sep| {
        assert key[at + 1..] == last;
      } else {
        assert |folder + sep + DisplayName(key, sep)| != |key|;
      }
    }
  }

  lemma OneUnitWorks(key: Str, sep: Str)
    requires |sep| == 1 && Contains(key, sep)
    ensures LastIndexOf(key, sep) == |Last(FolderPath(key, sep))|
    ensures FolderPath(key, sep) != []
  {
    var folder, last := KeyParts(key, sep);
    assert key[|folder|..|folder| + 1] == sep;
    assert OccursAt(key, sep, |folder|);
    forall j | j > |folder|
      ensures !OccursAt(key, sep, j)
    {
      if j + 1 <= |key| {
        var k := j - |folder| - 1;
        assert last[k..k + 1] == key[j..j + 1];
        assert !OccursAt(last, sep, k);
      }
    }
  }

  lemma SeparatorAlone(sep: Str)
    requires |sep| > 1
    ensures Contains(sep, sep) && FolderPath(sep, sep) == [[]] && LastIndexOf(sep, sep) == 0
  {
    assert OccursAt(sep, sep, 0);
    assert IndexOf(sep, sep) == 0;
    assert Split([], sep) == [[]];
    var parts := Split(sep, sep);
    assert sep[|sep|..] == [] && sep[..0] == [];
    assert parts == [[], []];
    assert PrefixesUpTo(parts, sep, 0) == [] && parts[..1] == [[]];
  }

  /** Inside a folder, prefix, separator and display name give every key back if and only if
      the separator is one code unit. */
  lemma DisplayNamesExactly(sep: Str)
    ensures (forall key | Contains(key, sep) ::
               FolderPath(key, sep) != [] && Last(FolderPath(key, sep)) + sep + DisplayName(key, sep) == key)
       <==> |sep| == 1
  {
    if |sep| == 1 {
      forall key | Contains(key, sep)
        ensures FolderPath(key, sep) != [] && Last(FolderPath(key, sep)) + sep + DisplayName(key, sep) == key
      {
        OneUnitWorks(key, sep);
        DisplayNameExactly(key, sep);
      }
    } else if sep == [] {
      assert OccursAt(sep, sep, 0) && Contains(sep, sep);
      assert FolderPath(sep, sep) == [];
    } else {
      SeparatorAlone(sep);
      DisplayNameExactly(sep, sep);
    }
  }
}
