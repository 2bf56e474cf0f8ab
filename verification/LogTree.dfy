/** `Tree` (api/internal/logs/store.go): the scope rows of a session gathered by service. */
module LogTree {
  import opened Sequences
  import opened LogTables
  import LogRuns

  datatype ScopeRow = ScopeRow(scope: Scope, lines: int)
  datatype NodeScope = NodeScope(node: string, lines: int)
  datatype ServiceScope = ServiceScope(service: string, lines: int, nodes: seq<NodeScope>)

  function NodeOf(row: ScopeRow, service: string): seq<NodeScope> {
    if row.scope.service == service then [NodeScope(row.scope.node, row.lines)] else []
  }

  /** The nodes of one service, in row order. */
  function NodesOf(rows: seq<ScopeRow>, service: string): seq<NodeScope> {
    if rows == [] then []
    else NodesOf(rows[..|rows| - 1], service) + NodeOf(rows[|rows| - 1], service)
  }

  function SumRows(rows: seq<ScopeRow>): int {
    if rows == [] then 0 else SumRows(rows[..|rows| - 1]) + rows[|rows| - 1].lines
  }

  function SumNodes(nodes: seq<NodeScope>): int {
    if nodes == [] then 0 else SumNodes(nodes[..|nodes| - 1]) + nodes[|nodes| - 1].lines
  }

  function SumServices(services: seq<ServiceScope>): int {
    if services == [] then 0 else services[0].lines + SumServices(services[1..])
  }

  /** A service as `rows` describe it. */
  predicate Gathered(s: ServiceScope, rows: seq<ScopeRow>) {
    s.nodes == NodesOf(rows, s.service) && s.lines == SumNodes(s.nodes)
  }

  /** The services of the first `n` rows, each once, in the order of their first rows. */
  function FirstNames(rows: seq<ScopeRow>, n: nat): seq<string>
    requires n <= |rows|
  {
    if n == 0 then []
    else
      var before, name := FirstNames(rows, n - 1), rows[n - 1].scope.service;
      if name in before then before else before + [name]
  }

  /** Each service once, with exactly its nodes and their sum, and nothing left out. */
  ghost predicate IsTreeOf(result: seq<ServiceScope>, rows: seq<ScopeRow>) {
    && (forall i, j :: 0 <= i < j < |result| ==> result[i].service != result[j].service)
    && (forall i :: 0 <= i < |result| ==> Gathered(result[i], rows))
    && (forall k :: 0 <= k < |rows| ==> exists i :: 0 <= i < |result| && result[i].service == rows[k].scope.service)
    && SumServices(result) == SumRows(rows)
  }

  lemma NodesSnoc(rows: seq<ScopeRow>, row: ScopeRow, service: string)
    ensures NodesOf(rows + [row], service) == NodesOf(rows, service) + NodeOf(row, service)
  {
    assert (rows + [row])[..|rows + [row]| - 1] == rows;
  }

  lemma SumRowsSnoc(rows: seq<ScopeRow>, row: ScopeRow)
    ensures SumRows(rows + [row]) == SumRows(rows) + row.lines
  {
    assert (rows + [row])[..|rows + [row]| - 1] == rows;
  }

  lemma SumNodesSnoc(nodes: seq<NodeScope>, n: NodeScope)
    ensures SumNodes(nodes + [n]) == SumNodes(nodes) + n.lines
  {
    assert (nodes + [n])[..|nodes + [n]| - 1] == nodes;
  }

  lemma {:induction false} NodesNone(rows: seq<ScopeRow>, service: string)
    requires forall k :: 0 <= k < |rows| ==> rows[k].scope.service != service
    ensures NodesOf(rows, service) == []
  {
    if rows != [] {
      NodesNone(rows[..|rows| - 1], service);
    }
  }

  /** What a row adds to the service it names. */
  function WithNode(s: ServiceScope, row: ScopeRow): ServiceScope {
    ServiceScope(s.service, s.lines + row.lines, s.nodes + [NodeScope(row.scope.node, row.lines)])
  }

  lemma GatheredGrows(s: ServiceScope, rows: seq<ScopeRow>, row: ScopeRow)
    requires Gathered(s, rows)
    ensures Gathered(if row.scope.service == s.service then WithNode(s, row) else s, rows + [row])
  {
    NodesSnoc(rows, row, s.service);
    SumNodesSnoc(s.nodes, NodeScope(row.scope.node, row.lines));
    assert s.nodes + [] == s.nodes;
  }

  /** Sum over the services in the order of their first rows. */
  function SumOrder(order: seq<string>, services: map<string, ServiceScope>): int
    requires forall k :: 0 <= k < |order| ==> order[k] in services
  {
    if order == [] then 0 else SumOrder(order[..|order| - 1], services) + services[order[|order| - 1]].lines
  }

  lemma {:induction false} SumOrderUpdate(order: seq<string>, services: map<string, ServiceScope>, s: ServiceScope)
    requires Distinct(order)
    requires forall k :: 0 <= k < |order| ==> order[k] in services
    requires s.service in services
    ensures SumOrder(order, services[s.service := s])
         == SumOrder(order, services) + if s.service in order then s.lines - services[s.service].lines else 0
  {
    if order != [] {
      var n := |order| - 1;
      SumOrderUpdate(order[..n], services, s);
      assert order == order[..n] + [order[n]];
    }
  }

  lemma {:induction false} SumOrderOther(order: seq<string>, services: map<string, ServiceScope>, name: string, s: ServiceScope)
    requires forall k :: 0 <= k < |order| ==> order[k] in services && order[k] != name
    ensures SumOrder(order, services[name := s]) == SumOrder(order, services)
  {
    if order != [] {
      SumOrderOther(order[..|order| - 1], services, name, s);
    }
  }

  ghost predicate Distinct(names: seq<string>) {
    forall i, j :: 0 <= i < j < |names| ==> names[i] != names[j]
  }

  ghost predicate AllGathered(services: map<string, ServiceScope>, rows: seq<ScopeRow>) {
    && (forall s :: s in services ==> services[s].service == s && Gathered(services[s], rows))
    && (forall k :: 0 <= k < |rows| ==> rows[k].scope.service in services)
  }

  /** `order` lists `names`, each once. */
  ghost predicate Ordered(order: seq<string>, names: set<string>) {
    && Distinct(order)
    && (forall k :: 0 <= k < |order| ==> order[k] in names)
    && (forall s :: s in names ==> s in order)
  }

  /** The loop of `Tree` after `rows`: `services` holds one record per service and `order` the
      names in the order of their first rows. */
  ghost predicate Gathering(services: map<string, ServiceScope>, order: seq<string>, rows: seq<ScopeRow>) {
    Ordered(order, services.Keys) && AllGathered(services, rows) && SumOrder(order, services) == SumRows(rows)
  }

  function ServiceFor(services: map<string, ServiceScope>, name: string): ServiceScope {
    if name in services then services[name] else ServiceScope(name, 0, [])
  }

  /** One iteration of the loop. */
  function WithRow(services: map<string, ServiceScope>, row: ScopeRow): map<string, ServiceScope> {
    services[row.scope.service := WithNode(ServiceFor(services, row.scope.service), row)]
  }

  function OrderWith(order: seq<string>, services: map<string, ServiceScope>, name: string): seq<string> {
    if name in services then order else order + [name]
  }

  lemma ServiceForGathered(services: map<string, ServiceScope>, rows: seq<ScopeRow>, name: string)
    requires AllGathered(services, rows)
    ensures Gathered(ServiceFor(services, name), rows) && ServiceFor(services, name).service == name
  {
    if name !in services {
      NodesNone(rows, name);
    }
  }

  lemma RowGathered(services: map<string, ServiceScope>, rows: seq<ScopeRow>, row: ScopeRow)
    requires AllGathered(services, rows)
    ensures AllGathered(WithRow(services, row), rows + [row])
  {
    var name := row.scope.service;
    ServiceForGathered(services, rows, name);
    GatheredGrows(ServiceFor(services, name), rows, row);
    forall x | x in services && x != name
      ensures Gathered(services[x], rows + [row])
    {
      GatheredGrows(services[x], rows, row);
    }
  }

  lemma RowSummed(services: map<string, ServiceScope>, order: seq<string>, rows: seq<ScopeRow>, row: ScopeRow)
    requires Gathering(services, order, rows)
    ensures var order' := OrderWith(order, services, row.scope.service);
            && (forall k :: 0 <= k < |order'| ==> order'[k] in WithRow(services, row))
            && SumOrder(order', WithRow(services, row)) == SumRows(rows + [row])
  {
    var name := row.scope.service;
    var s := WithNode(ServiceFor(services, name), row);
    SumRowsSnoc(rows, row);
    if name in services {
      SumOrderUpdate(order, services, s);
    } else {
      SumOrderOther(order, services, name, s);
      assert (order + [name])[..|order|] == order;
    }
  }

  lemma OrderGrows(order: seq<string>, names: set<string>, name: string)
    requires Ordered(order, names)
    ensures name !in names ==> Ordered(order + [name], names + {name})
  {
    if name !in names {
      var order' := order + [name];
      forall s | s in names + {name}
        ensures s in order'
      {
        if s == name {
          assert order'[|order|] == name;
        }
      }
    }
  }

  lemma RowOrdered(services: map<string, ServiceScope>, order: seq<string>, row: ScopeRow)
    requires Ordered(order, services.Keys)
    ensures Ordered(OrderWith(order, services, row.scope.service), WithRow(services, row).Keys)
  {
    var name := row.scope.service;
    OrderGrows(order, services.Keys, name);
    assert WithRow(services, row).Keys == services.Keys + {name};
    if name in services {
      assert services.Keys + {name} == services.Keys;
    }
  }

  lemma StartGathering()
    ensures Gathering(map[], [], [])
  {
  }

  lemma RowKeepsGathering(services: map<string, ServiceScope>, order: seq<string>, rows: seq<ScopeRow>, row: ScopeRow)
    requires Gathering(services, order, rows)
    ensures Gathering(WithRow(services, row), OrderWith(order, services, row.scope.service), rows + [row])
  {
    RowOrdered(services, order, row);
    RowGathered(services, rows, row);
    RowSummed(services, order, rows, row);
  }

  lemma {:induction false} ResultSum(result: seq<ServiceScope>, s: ServiceScope)
    ensures SumServices(result + [s]) == SumServices(result) + s.lines
  {
    if result == [] {
      assert result + [s] == [s];
      assert [s][1..] == [];
    } else {
      assert (result + [s])[1..] == result[1..] + [s];
      ResultSum(result[1..], s);
    }
  }

  /** The body of the first loop: a new service gets a record, then the row is added to it. */
  method Gather(services: map<string, ServiceScope>, order: seq<string>, row: ScopeRow)
    returns (services': map<string, ServiceScope>, order': seq<string>)
    ensures services' == WithRow(services, row) && order' == OrderWith(order, services, row.scope.service)
  {
    var name := row.scope.service;
    services', order' := services, order;
    if name !in services' {
      services' := services'[name := ServiceScope(name, 0, [])];
      order' := order' + [name];
    }
    var service := services'[name];
    service := service.(lines := service.lines + row.lines);
    service := service.(nodes := service.nodes + [NodeScope(row.scope.node, row.lines)]);
    services' := services'[name := service];
  }

  ghost predicate GatheredAs(services: map<string, ServiceScope>, order: seq<string>, rows: seq<ScopeRow>, names: seq<string>) {
    Gathering(services, order, rows) && order == names
  }

  lemma GatheredStep(services: map<string, ServiceScope>, order: seq<string>, rows: seq<ScopeRow>, names: seq<string>,
                     row: ScopeRow, after: seq<ScopeRow>, namesAfter: seq<string>)
    requires GatheredAs(services, order, rows, names) && after == rows + [row]
    requires namesAfter == if row.scope.service in names then names else names + [row.scope.service]
    ensures GatheredAs(WithRow(services, row), OrderWith(order, services, row.scope.service), after, namesAfter)
  {
    RowKeepsGathering(services, order, rows, row);
    assert row.scope.service in services <==> row.scope.service in order;
  }

  /** The loop of `Tree` over the rows. */
  method GatherAll(rows: seq<ScopeRow>) returns (services: map<string, ServiceScope>, order: seq<string>)
    ensures GatheredAs(services, order, rows, FirstNames(rows, |rows|))
  {
    services, order := map[], [];
    ghost var names: seq<string> := [];
    StartGathering();
    for n := 0 to |rows|
      invariant names == FirstNames(rows, n)
      invariant GatheredAs(services, order, rows[..n], names)
    {
      var row := rows[n];
      ghost var namesAfter := if row.scope.service in names then names else names + [row.scope.service];
      TakeOneMore(rows, n);
      GatheredStep(services, order, rows[..n], names, row, rows[..n + 1], namesAfter);
      services, order := Gather(services, order, row);
      names := namesAfter;
    }
    TakeAll(rows);
  }

  /** `Tree` after its query: `rows` are the scope rows of the session in the order the
      database returns them. */
  method Tree(rows: seq<ScopeRow>) returns (result: seq<ServiceScope>)
    ensures IsTreeOf(result, rows)
    ensures |result| == |FirstNames(rows, |rows|)| && forall i :: 0 <= i < |result| ==> result[i].service == FirstNames(rows, |rows|)[i]
  {
    var services, order := GatherAll(rows);
    result := InOrder(services, order);
    AssembledIsTree(services, order, rows, result);
  }

  /** The last loop of `Tree`. */
  method InOrder(services: map<string, ServiceScope>, order: seq<string>) returns (result: seq<ServiceScope>)
    requires forall k :: 0 <= k < |order| ==> order[k] in services
    ensures |result| == |order| && forall i :: 0 <= i < |order| ==> result[i] == services[order[i]]
    ensures SumServices(result) == SumOrder(order, services)
  {
    result := [];
    var k := 0;
    while k < |order|
      invariant 0 <= k <= |order| && |result| == k
      invariant forall i :: 0 <= i < k ==> result[i] == services[order[i]]
      invariant SumServices(result) == SumOrder(order[..k], services)
    {
      ResultSum(result, services[order[k]]);
      assert order[..k + 1][..k] == order[..k];
      result := result + [services[order[k]]];
      k := k + 1;
    }
    assert order[..k] == order;
  }

  lemma AssembledIsTree(services: map<string, ServiceScope>, order: seq<string>, rows: seq<ScopeRow>, result: seq<ServiceScope>)
    requires Gathering(services, order, rows)
    requires |result| == |order| && forall i :: 0 <= i < |order| ==> result[i] == services[order[i]]
    requires SumServices(result) == SumOrder(order, services)
    ensures IsTreeOf(result, rows)
  {
    forall j | 0 <= j < |rows|
      ensures exists i :: 0 <= i < |result| && result[i].service == rows[j].scope.service
    {
      assert rows[j].scope.service in order;
      var i :| 0 <= i < |order| && order[i] == rows[j].scope.service;
      assert result[i].service == rows[j].scope.service;
    }
  }

  /** `rows` lists the scope table, each key once, in some order. */
  ghost predicate Lists(rows: seq<ScopeRow>, scopes: map<Scope, int>) {
    && (forall i, j :: 0 <= i < j < |rows| ==> rows[i].scope != rows[j].scope)
    && (forall i :: 0 <= i < |rows| ==> rows[i].scope in scopes && rows[i].lines == scopes[rows[i].scope])
    && (forall s :: s in scopes ==> exists i :: 0 <= i < |rows| && rows[i].scope == s)
  }

  function Counted(rows: seq<ScopeRow>, es: seq<Entry>): int {
    if rows == [] then 0 else Counted(rows[..|rows| - 1], es) + CountScope(es, rows[|rows| - 1].scope)
  }

  lemma {:induction false} CountedStep(rows: seq<ScopeRow>, e: Entry, es: seq<Entry>)
    requires forall i, j :: 0 <= i < j < |rows| ==> rows[i].scope != rows[j].scope
    ensures Counted(rows, [e] + es)
         == Counted(rows, es) + if exists i :: 0 <= i < |rows| && rows[i].scope == e.scope then 1 else 0
  {
    if rows != [] {
      var n := |rows| - 1;
      CountedStep(rows[..n], e, es);
      assert ([e] + es)[1..] == es;
      if rows[n].scope == e.scope {
        assert forall i :: 0 <= i < n ==> rows[..n][i].scope != e.scope;
      } else if i :| 0 <= i < |rows| && rows[i].scope == e.scope {
        assert rows[..n][i].scope == e.scope;
      }
    }
  }

  lemma {:induction false} EveryEntryCounted(rows: seq<ScopeRow>, es: seq<Entry>)
    requires forall i, j :: 0 <= i < j < |rows| ==> rows[i].scope != rows[j].scope
    requires forall e :: e in es ==> exists i :: 0 <= i < |rows| && rows[i].scope == e.scope
    ensures Counted(rows, es) == |es|
    decreases |es|
  {
    if es == [] {
      CountedNothing(rows);
    } else {
      assert es[0] in es;
      assert forall e :: e in es[1..] ==> e in es;
      CountedStep(rows, es[0], es[1..]);
      assert [es[0]] + es[1..] == es;
      EveryEntryCounted(rows, es[1..]);
    }
  }

  lemma {:induction false} CountedNothing(rows: seq<ScopeRow>)
    ensures Counted(rows, []) == 0
  {
    if rows != [] {
      CountedNothing(rows[..|rows| - 1]);
    }
  }

  lemma {:induction false} CountedIsSum(rows: seq<ScopeRow>, es: seq<Entry>)
    requires forall i :: 0 <= i < |rows| ==> rows[i].lines == CountScope(es, rows[i].scope)
    ensures SumRows(rows) == Counted(rows, es)
  {
    if rows != [] {
      CountedIsSum(rows[..|rows| - 1], es);
    }
  }

  lemma {:induction false} CountScopePositive(es: seq<Entry>, e: Entry)
    requires e in es
    ensures CountScope(es, e.scope) > 0
  {
    if es[0] == e {
      CountScopeBound(es[1..], e.scope);
    } else {
      CountScopePositive(es[1..], e);
    }
  }

  lemma {:induction false} CountScopeBound(es: seq<Entry>, scope: Scope)
    ensures CountScope(es, scope) >= 0
  {
    if es != [] {
      CountScopeBound(es[1..], scope);
    }
  }

  /** The line counts of the services in the tree sum to the number of stored entries. */
  lemma TreeSumsToEntries(t: Tables, rows: seq<ScopeRow>, result: seq<ServiceScope>)
    requires CountersAgree(t) && Lists(rows, t.scopes) && IsTreeOf(result, rows)
    ensures SumServices(result) == |t.entries|
  {
    forall e | e in t.entries
      ensures exists i :: 0 <= i < |rows| && rows[i].scope == e.scope
    {
      CountScopePositive(t.entries, e);
      assert LinesOf(t.scopes, e.scope) == CountScope(t.entries, e.scope);
      assert e.scope in t.scopes;
    }
    forall i | 0 <= i < |rows|
      ensures rows[i].lines == CountScope(t.entries, rows[i].scope)
    {
      assert LinesOf(t.scopes, rows[i].scope) == CountScope(t.entries, rows[i].scope);
    }
    EveryEntryCounted(rows, t.entries);
    CountedIsSum(rows, t.entries);
  }

  /** So it is at every point of every run of uploads and tails from the empty tables. */
  lemma TreeOfEveryRun(pats: Patterns, steps: seq<LogRuns.Step>, rows: seq<ScopeRow>, result: seq<ServiceScope>)
    requires LogRuns.Run(pats, LogRuns.EMPTY, steps)
    requires Lists(rows, LogRuns.After(pats, LogRuns.EMPTY, steps).t.scopes) && IsTreeOf(result, rows)
    ensures SumServices(result) == |LogRuns.After(pats, LogRuns.EMPTY, steps).t.entries|
  {
    LogRuns.CountersAlwaysAgree(pats, LogRuns.EMPTY, steps);
    TreeSumsToEntries(LogRuns.After(pats, LogRuns.EMPTY, steps).t, rows, result);
  }
}
