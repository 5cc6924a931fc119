/*
  The dependency graph: a set of nodes, an edge relation, a stale flag per
  node and named node groups.

  Edges are stored from CONSUMER to PROVIDER, the reverse of the direction in
  which data flows: connecting a provider to a consumer stores the pair
  (consumer, provider). So the nodes reachable from a node along edges are
  the ones it draws data from ("before" it), and the nodes that reach it are
  the ones that draw data from it ("after" it).

  A node is identified by its UUID, as the source's node equality is; the
  graph keeps node values keyed by UUID.
*/
module Dag {
  import opened Wrappers
  import opened PyText
  import Closure
  import Packets
  import Nodes
  import Util
  import Variables

  type Uuid = Packets.Uuid
  type Node = Nodes.Node
  type PacketType = Packets.PacketType

  /** The state of a graph. */
  datatype Graph = Graph(
    nodes: map<Uuid, Node>,
    edges: set<(Uuid, Uuid)>,
    stale: map<Uuid, bool>,
    groups: map<string, set<Uuid>>)

  /** Every node sits under its own UUID, and every edge joins two nodes of
      the graph. (Stale entries and group members may name nodes that are
      gone: removing a node leaves the groups alone.) */
  predicate Valid(g: Graph) {
    (forall u :: u in g.nodes ==> g.nodes[u].uuid == u && Nodes.Wf(g.nodes[u])) &&
    (forall e :: e in g.edges ==> e.0 in g.nodes && e.1 in g.nodes)
  }

  ghost predicate Acyclic(g: Graph) {
    Closure.Acyclic(g.nodes.Keys, g.edges)
  }

  function EmptyGraph(): (g: Graph)
    ensures Valid(g) && Acyclic(g)
  {
    var g := Graph(map[], {}, map[], map[]);
    assert Closure.IsRanking(map[], g.nodes.Keys, g.edges);
    g
  }

  // ---------------------------------------------------------------------------
  // Looking nodes up, adding and removing them
  // ---------------------------------------------------------------------------

  /** The nodes carrying a name. */
  function NodesNamed(g: Graph, name: string): (r: set<Uuid>)
    ensures forall u :: u in r <==> u in g.nodes && g.nodes[u].name == name
  {
    set u | u in g.nodes && g.nodes[u].name == name
  }

  /** `node(name=...)` finds a node: an empty name never matches. */
  predicate HasNodeNamed(g: Graph, name: string) {
    name != "" && NodesNamed(g, name) != {}
  }

  /** `addNode(dagNode, stale)`: refused when a node already has the node's
      name (an empty name never clashes); otherwise the node is in the graph
      with the given stale flag. A node whose UUID is already there keeps
      its stored value, as a graph keyed by equal nodes does. */
  function AddNode(g: Graph, n: Node, isStale: bool): (r: Result<Graph>)
    ensures r.Err? <==> HasNodeNamed(g, n.name)
    ensures r.Ok? ==>
      r.value.nodes.Keys == g.nodes.Keys + {n.uuid} &&
      (n.uuid !in g.nodes ==> r.value.nodes[n.uuid] == n) &&
      (forall u :: u in g.nodes ==> r.value.nodes[u] == g.nodes[u]) &&
      r.value.stale == g.stale[n.uuid := isStale] &&
      r.value.edges == g.edges && r.value.groups == g.groups
  {
    if HasNodeNamed(g, n.name) then Err("Cannot add node named " + n.name + ", as it already exists.")
    else
      var nodes := if n.uuid in g.nodes then g.nodes else g.nodes[n.uuid := n];
      Ok(Graph(nodes, g.edges, g.stale[n.uuid := isStale], g.groups))
  }

  /** Adding a well-formed node keeps the graph valid and adds no cycle. */
  lemma AddNodeValid(g: Graph, n: Node, isStale: bool)
    requires Valid(g) && Nodes.Wf(n)
    requires AddNode(g, n, isStale).Ok?
    ensures Valid(AddNode(g, n, isStale).value)
    ensures Acyclic(g) ==> Acyclic(AddNode(g, n, isStale).value)
  {
    var h := AddNode(g, n, isStale).value;
    if Acyclic(g) {
      var rank :| Closure.IsRanking(rank, g.nodes.Keys, g.edges);
      var rank' := if n.uuid in rank then rank else rank[n.uuid := 0];
      assert Closure.IsRanking(rank', h.nodes.Keys, h.edges);
    }
  }

  /** Two nodes with the same non-empty name cannot both be added, while any
      number of unnamed nodes can. */
  lemma AddNodeNames(g: Graph, a: Node, b: Node)
    requires Valid(g) && a.uuid !in g.nodes && a.name == b.name && NodesNamed(g, a.name) == {}
    ensures AddNode(g, a, false).Ok?
    ensures var h := AddNode(g, a, false).value;
      AddNode(h, b, false).Ok? <==> a.name == ""
  {
    var h := AddNode(g, a, false).value;
    assert a.uuid in NodesNamed(h, a.name);
  }

  /** `removeNode(dagNode)`: the node, every edge touching it and its stale
      entry go; group membership is left as it was. An absent node raises. */
  function RemoveNode(g: Graph, u: Uuid): (r: Result<Graph>)
    ensures r.Err? <==> u !in g.nodes
    ensures r.Ok? ==>
      r.value.nodes == g.nodes - {u} &&
      (forall e :: e in r.value.edges <==> e in g.edges && e.0 != u && e.1 != u) &&
      r.value.stale == g.stale - {u} && r.value.groups == g.groups
  {
    if u !in g.nodes then Err("The node is not in the graph.")
    else
      var edges := set e | e in g.edges && e.0 != u && e.1 != u;
      Ok(Graph(g.nodes - {u}, edges, g.stale - {u}, g.groups))
  }

  /** Removing a node keeps the graph valid and acyclic. */
  lemma RemoveNodeValid(g: Graph, u: Uuid)
    requires Valid(g) && u in g.nodes
    ensures Valid(RemoveNode(g, u).value)
    ensures Acyclic(g) ==> Acyclic(RemoveNode(g, u).value)
  {
    var h := RemoveNode(g, u).value;
    if Acyclic(g) {
      var rank :| Closure.IsRanking(rank, g.nodes.Keys, g.edges);
      Closure.AcyclicSubset(g.nodes.Keys, g.edges, h.nodes.Keys, h.edges, rank);
    }
  }

  // ---------------------------------------------------------------------------
  // Connections
  // ---------------------------------------------------------------------------

  /** `nodeConnectionsIn(n)`: the nodes `n` draws data from directly. */
  function ConnectionsIn(g: Graph, u: Uuid): (r: set<Uuid>)
    ensures forall p :: p in r <==> (u, p) in g.edges
  {
    set e | e in g.edges && e.0 == u :: e.1
  }

  /** `nodeConnectionsOut(n)`: the nodes drawing data from `n` directly. */
  function ConnectionsOut(g: Graph, u: Uuid): (r: set<Uuid>)
    ensures forall c :: c in r <==> (c, u) in g.edges
  {
    set e | e in g.edges && e.1 == u :: e.0
  }

  /** `connectNodes(provider, consumer)`: refused when either node is absent
      or the provider already feeds the consumer; otherwise the edge
      (consumer, provider) is stored. The acyclicity test runs after the
      insertion and its failure does not take the edge out again, so the
      returned graph is the state after the call either way. */
  ghost function Connect(g: Graph, provider: Uuid, consumer: Uuid): (r: (Result<()>, Graph))
    ensures r.0.Ok? ==> Acyclic(r.1)
    ensures provider !in g.nodes || consumer !in g.nodes || (consumer, provider) in g.edges ==> r.0.Err? && r.1 == g
    ensures provider in g.nodes && consumer in g.nodes && (consumer, provider) !in g.edges ==>
      r.1 == g.(edges := g.edges + {(consumer, provider)}) && (r.0.Ok? <==> Acyclic(r.1))
  {
    if provider !in g.nodes then (Err("The provider does not exist in the graph."), g)
    else if consumer !in g.nodes then (Err("The consumer does not exist in the graph."), g)
    else if (consumer, provider) in g.edges then (Err("Attempting to duplicate outgoing connection."), g)
    else
      var h := g.(edges := g.edges + {(consumer, provider)});
      if Closure.Acyclic(h.nodes.Keys, h.edges) then (Ok(()), h)
      else (Err("The directed graph is no longer acyclic!"), h)
  }

  /** A node cannot be connected to itself: the self-loop is stored and the
      call fails. */
  lemma ConnectSelf(g: Graph, u: Uuid)
    requires u in g.nodes && (u, u) !in g.edges
    ensures Connect(g, u, u).0.Err? && (u, u) in Connect(g, u, u).1.edges
  {
  }

  /** After a successful connection the consumer draws from the provider,
      and a valid graph stays valid. */
  lemma ConnectValid(g: Graph, provider: Uuid, consumer: Uuid)
    requires Valid(g)
    ensures Valid(Connect(g, provider, consumer).1)
    ensures Connect(g, provider, consumer).0.Ok? ==> provider in ConnectionsIn(Connect(g, provider, consumer).1, consumer)
  {
  }

  /** `disconnectNodes(provider, consumer)`: refused when either node is
      absent or the edge is not there; otherwise exactly that edge goes. */
  function Disconnect(g: Graph, provider: Uuid, consumer: Uuid): (r: Result<Graph>)
    ensures r.Ok? <==> provider in g.nodes && consumer in g.nodes && (consumer, provider) in g.edges
    ensures r.Ok? ==> r.value == g.(edges := g.edges - {(consumer, provider)})
  {
    if provider !in g.nodes then Err("The provider does not exist in the graph.")
    else if consumer !in g.nodes then Err("The consumer does not exist in the graph.")
    else if (consumer, provider) !in g.edges then Err("The edge is not in the graph.")
    else Ok(g.(edges := g.edges - {(consumer, provider)}))
  }

  /** Disconnecting keeps the graph valid and acyclic, and undoes a
      connection. */
  lemma DisconnectValid(g: Graph, provider: Uuid, consumer: Uuid)
    requires Valid(g) && Disconnect(g, provider, consumer).Ok?
    ensures Valid(Disconnect(g, provider, consumer).value)
    ensures Acyclic(g) ==> Acyclic(Disconnect(g, provider, consumer).value)
    ensures provider !in ConnectionsIn(Disconnect(g, provider, consumer).value, consumer)
  {
    var h := Disconnect(g, provider, consumer).value;
    if Acyclic(g) {
      var rank :| Closure.IsRanking(rank, g.nodes.Keys, g.edges);
      Closure.AcyclicSubset(g.nodes.Keys, g.edges, h.nodes.Keys, h.edges, rank);
    }
  }

  /** A connection that succeeds is undone by the matching disconnection. */
  lemma ConnectDisconnect(g: Graph, provider: Uuid, consumer: Uuid)
    requires Connect(g, provider, consumer).0.Ok?
    ensures Disconnect(Connect(g, provider, consumer).1, provider, consumer) == Ok(g)
  {
    assert (consumer, provider) !in g.edges;
    assert g.edges + {(consumer, provider)} - {(consumer, provider)} == g.edges;
  }

  /** `nodeStaleState(n)`: a `KeyError` for a node without an entry. */
  function StaleState(g: Graph, u: Uuid): (r: Result<bool>)
    ensures r.Ok? <==> u in g.stale
    ensures r.Ok? ==> r.value == g.stale[u]
  {
    if u in g.stale then Ok(g.stale[u]) else Err("KeyError")
  }

  // ---------------------------------------------------------------------------
  // Nodes before and after
  // ---------------------------------------------------------------------------

  /** `allNodesBefore(n)`: every node `n` draws data from, directly or not. */
  ghost function Before(g: Graph, u: Uuid): set<Uuid> {
    Closure.Reachable(g.edges, u)
  }

  /** `allNodesAfter(n)`: every node drawing data from `n`, directly or not. */
  ghost function After(g: Graph, u: Uuid): set<Uuid> {
    Closure.Reachable(Closure.Converse(g.edges), u)
  }

  /** One node is after another exactly when the other is before it. */
  lemma BeforeAfter(g: Graph, a: Uuid, b: Uuid)
    ensures a in After(g, b) <==> b in Before(g, a)
  {
    if a in After(g, b) {
      ConverseReaches(g.edges, b, a);
      Closure.ReachesShape(g.edges, a, b);
    }
    if b in Before(g, a) {
      ReachesConverse(g.edges, a, b);
      Closure.ReachesShape(Closure.Converse(g.edges), b, a);
    }
  }

  lemma {:induction false} ReachesConverse(R: set<(Uuid, Uuid)>, a: Uuid, b: Uuid)
    requires Closure.Reaches(R, a, b)
    ensures Closure.Reaches(Closure.Converse(R), b, a)
  {
    var p :| Closure.IsPath(R, p, a, b);
    PathConverse(R, p, a, b);
  }

  lemma {:induction false} ConverseReaches(R: set<(Uuid, Uuid)>, a: Uuid, b: Uuid)
    requires Closure.Reaches(Closure.Converse(R), a, b)
    ensures Closure.Reaches(R, b, a)
  {
    var C := Closure.Converse(R);
    var p :| Closure.IsPath(C, p, a, b);
    PathConverse(C, p, a, b);
    ConverseConverse(R);
  }

  lemma ConverseConverse(R: set<(Uuid, Uuid)>)
    ensures Closure.Converse(Closure.Converse(R)) == R
  {
  }

  /** A path read backwards is a path of the converse relation. */
  lemma {:induction false} PathConverse(R: set<(Uuid, Uuid)>, p: seq<Uuid>, a: Uuid, b: Uuid)
    requires Closure.IsPath(R, p, a, b)
    ensures Closure.IsPath(Closure.Converse(R), Reversed(p), b, a)
  {
    var q := Reversed(p);
    forall i | 0 <= i < |q| - 1
      ensures (q[i], q[i + 1]) in Closure.Converse(R)
    {
      assert q[i] == p[|p| - 1 - i] && q[i + 1] == p[|p| - 2 - i];
      assert (p[|p| - 2 - i], p[|p| - 1 - i]) in R;
    }
  }

  function Reversed<T>(s: seq<T>): (r: seq<T>)
    ensures |r| == |s| && forall i :: 0 <= i < |s| ==> r[i] == s[|s| - 1 - i]
  {
    seq(|s|, i requires 0 <= i < |s| => s[|s| - 1 - i])
  }

  /** In an acyclic graph no node is before itself. */
  lemma NotBeforeItself(g: Graph, u: Uuid)
    requires Acyclic(g)
    ensures u !in Before(g, u) && u !in After(g, u)
  {
    var rank :| Closure.IsRanking(rank, g.nodes.Keys, g.edges);
    if u in Before(g, u) {
      Closure.RankDecreases(rank, g.nodes.Keys, g.edges, u, u);
    }
    if u in After(g, u) {
      BeforeAfter(g, u, u);
      Closure.RankDecreases(rank, g.nodes.Keys, g.edges, u, u);
    }
  }

  /** The loop of `allNodesBefore`. */
  method AllNodesBefore(g: Graph, u: Uuid) returns (r: set<Uuid>)
    ensures r == Before(g, u)
  {
    r := Closure.ReachableFrom(g.edges, u);
  }

  /** The loop of `allNodesAfter`. */
  method AllNodesAfter(g: Graph, u: Uuid) returns (r: set<Uuid>)
    ensures r == After(g, u)
  {
    r := Closure.ReachableFrom(Closure.Converse(g.edges), u);
  }

  // ---------------------------------------------------------------------------
  // Where an input's data comes from
  // ---------------------------------------------------------------------------

  /** `nodeAndOutputFromScenegraphLocationString(s, dag)`: the node and
      output a location string names, or nothing when any step fails (no
      `::` prefix, a malformed UUID, no node with that UUID, no fourth field,
      no output of that name). */
  function Located(g: Graph, s: string): (r: Option<(Uuid, string)>)
    ensures r.Some? <==>
      Packets.UuidFromLocation(s).Ok? && Packets.UuidFromLocation(s).value.Some? &&
      Packets.UuidFromLocation(s).value.value in g.nodes &&
      Packets.Field(s, 3).Some? &&
      Nodes.OutputKey(Packets.Field(s, 3).value) in g.nodes[Packets.UuidFromLocation(s).value.value].props
    ensures r.Some? ==> r.value == (Packets.UuidFromLocation(s).value.value, Packets.Field(s, 3).value)
  {
    match Packets.UuidFromLocation(s)
    case Err(_) => None
    case Ok(None) => None
    case Ok(Some(id)) =>
      if id !in g.nodes then None
      else
        match Packets.Field(s, 3)
        case None => None
        case Some(outName) =>
          if Nodes.OutputKey(outName) in g.nodes[id].props then Some((id, outName)) else None
  }

  /** Decoding the location string of an output of a node in the graph gives
      that node and output back, provided the output's name holds no `:`. */
  lemma LocatedRoundTrip(g: Graph, p: Uuid, outName: string)
    requires p in g.nodes && Nodes.OutputKey(outName) in g.nodes[p].props && ':' !in outName
    ensures Located(g, Packets.LocationString(p, outName)) == Some((p, outName))
  {
    Packets.LocationRoundTrip(p, outName);
  }

  /** `nodeInputComesFromNode(n, input)`: the provider and output the
      input's value (with variables substituted) names. */
  function Binding(g: Graph, scope: Variables.Scope, u: Uuid, name: string): (r: Option<(Uuid, string)>)
    requires Valid(g) && u in g.nodes
    ensures r.Some? ==> r.value.0 in g.nodes && Nodes.OutputKey(r.value.1) in g.nodes[r.value.0].props
  {
    match Nodes.InputValue(g.nodes[u], name, scope, true)
    case Err(_) => None
    case Ok(s) => Located(g, s)
  }

  /** An input holding the location string of an output (free of `:` and
      `$`) is bound to exactly that output. */
  lemma BindingRoundTrip(g: Graph, scope: Variables.Scope, u: Uuid, name: string, p: Uuid, outName: string)
    requires Valid(g) && u in g.nodes && p in g.nodes
    requires Nodes.InputNamed(g.nodes[u], name).Ok?
    requires Nodes.InputNamed(g.nodes[u], name).value.value == Packets.LocationString(p, outName)
    requires Nodes.OutputKey(outName) in g.nodes[p].props && ':' !in outName && '$' !in outName
    ensures Binding(g, scope, u, name) == Some((p, outName))
  {
    var s := Packets.LocationString(p, outName);
    assert '$' !in s by {
      assert s == "::" + Packets.UuidText(p) + ":" + outName;
    }
    Variables.SubstituteNoDollar(scope, s);
    LocatedRoundTrip(g, p, outName);
  }

  /** Every binding is backed by an edge from the consumer to the provider. */
  ghost predicate BindingsOnEdges(g: Graph, scope: Variables.Scope)
    requires Valid(g)
  {
    forall u, name :: u in g.nodes && Binding(g, scope, u, name).Some? ==>
      (u, Binding(g, scope, u, name).value.0) in g.edges
  }

  /** The declared type of an output of a node. */
  function DeclaredType(g: Graph, u: Uuid, outName: string): PacketType
    requires Valid(g) && u in g.nodes && Nodes.OutputKey(outName) in g.nodes[u].props
  {
    Nodes.OutputNamed(g.nodes[u], outName).value.packetType
  }

  /** `nodeOutputType(n, output)`: an output whose type has no subtypes, or
      that no input of the node shares its type with, or whose input is
      unbound, has its declared type; otherwise it has the type of whatever
      feeds that input. The recursion follows bindings, which the edges
      back, so a ranking of the acyclic graph bounds it. */
  function OutputType(g: Graph, scope: Variables.Scope, u: Uuid, outName: string, ghost rank: map<Uuid, nat>): (t: PacketType)
    requires Valid(g) && BindingsOnEdges(g, scope) && Closure.IsRanking(rank, g.nodes.Keys, g.edges)
    requires u in g.nodes && Nodes.OutputKey(outName) in g.nodes[u].props
    ensures Packets.SubtypesOf(DeclaredType(g, u, outName)) == {} ==> t == DeclaredType(g, u, outName)
    decreases rank[u]
  {
    var declared := DeclaredType(g, u, outName);
    if Packets.SubtypesOf(declared) == {} then declared
    else
      match Nodes.InputAffectingOutput(g.nodes[u].kind, Nodes.OutputDecl(outName, declared))
      case None => declared
      case Some(input) =>
        match Binding(g, scope, u, input.name)
        case None => declared
        case Some((p, pOut)) =>
          assert (u, p) in g.edges;
          OutputType(g, scope, p, pOut, rank)
  }

  /** Every binding carries a type its input accepts. */
  ghost predicate TypedBindings(g: Graph, scope: Variables.Scope)
    requires Valid(g)
  {
    forall u, i ::
      (u in g.nodes && 0 <= i < |Nodes.InputDecls(g.nodes[u].kind)| &&
       Binding(g, scope, u, Nodes.InputDecls(g.nodes[u].kind)[i].name).Some?) ==>
      var b := Binding(g, scope, u, Nodes.InputDecls(g.nodes[u].kind)[i].name).value;
      DeclaredType(g, b.0, b.1) in Nodes.PossibleTypes(Nodes.InputDecls(g.nodes[u].kind)[i].packetType)
  }

  /** When every binding is well typed, the type an output reports is one
      its declared type allows. */
  lemma {:induction false} OutputTypePossible(g: Graph, scope: Variables.Scope, u: Uuid, outName: string, rank: map<Uuid, nat>)
    requires Valid(g) && BindingsOnEdges(g, scope) && Closure.IsRanking(rank, g.nodes.Keys, g.edges)
    requires TypedBindings(g, scope)
    requires u in g.nodes && Nodes.OutputKey(outName) in g.nodes[u].props
    ensures OutputType(g, scope, u, outName, rank) in Nodes.PossibleTypes(DeclaredType(g, u, outName))
    decreases rank[u]
  {
    var declared := DeclaredType(g, u, outName);
    if Packets.SubtypesOf(declared) != {} {
      var k := g.nodes[u].kind;
      match Nodes.FirstOfType(Nodes.InputDecls(k), (d: Nodes.InputDecl) => d.packetType, declared)
      case None =>
      case Some(i) =>
        var input := Nodes.InputDecls(k)[i];
        match Binding(g, scope, u, input.name)
        case None =>
        case Some((p, pOut)) =>
          assert (u, p) in g.edges;
          OutputTypePossible(g, scope, p, pOut, rank);
          assert DeclaredType(g, p, pOut) in Nodes.PossibleTypes(input.packetType);
    }
  }

  // ---------------------------------------------------------------------------
  // Dependencies
  // ---------------------------------------------------------------------------

  /** The distinct items of a sequence. */
  function Elems<T(!new)>(s: seq<T>): (r: set<T>)
    ensures forall x :: x in r <==> x in s
  {
    set x | x in s
  }

  /** A needs function stays inside a universe of nodes. */
  ghost predicate NeedsClosed<T(!new)>(needs: T -> seq<T>, U: set<T>) {
    forall x, y :: x in U && y in needs(x) ==> y in U
  }

  /** The relation "x needs y" induced on a universe of nodes. */
  ghost function NeedsRelation<T(!new)>(needs: T -> seq<T>, U: set<T>): (R: set<(T, T)>)
    ensures forall x, y :: (x, y) in R <==> x in U && y in needs(x)
  {
    set x, y | x in U && y in needs(x) :: (x, y)
  }

  /** Item `j` of the list is needed by an item before it. */
  ghost predicate NeededEarlier<T(!new)>(needs: T -> seq<T>, list: seq<T>, j: int)
    requires 0 <= j < |list|
  {
    exists i :: 0 <= i < j && list[j] in needs(list[i])
  }

  /** What the worklist of `orderedNodeDependenciesAt` produces: the
      target's own needs first, in order; then, only with recursion, every
      further need, each once and after an item that needs it; and with
      recursion the items are exactly the nodes reachable through needs. */
  ghost predicate Discovered<T(!new)>(needs: T -> seq<T>, U: set<T>, target: T, recursion: bool, list: seq<T>) {
    |list| >= |needs(target)| && list[..|needs(target)|] == needs(target) &&
    (!recursion ==> list == needs(target)) &&
    (forall j :: |needs(target)| <= j < |list| ==> list[j] !in list[..j] && NeededEarlier(needs, list, j)) &&
    (recursion ==> forall x :: x in list <==> x in Closure.Reachable(NeedsRelation(needs, U), target))
  }

  /** The inner loop of `orderedNodeDependenciesAt` with recursion on:
      append each item of `rdp` that is not listed yet. */
  method AppendMissing<T(==,!new)>(list: seq<T>, rdp: seq<T>) returns (r: seq<T>)
    ensures |r| >= |list| && r[..|list|] == list
    ensures forall j :: |list| <= j < |r| ==> r[j] !in r[..j] && r[j] in rdp
    ensures forall y :: y in rdp ==> y in r
  {
    r := list;
    var k := 0;
    while k < |rdp|
      invariant 0 <= k <= |rdp|
      invariant |r| >= |list| && r[..|list|] == list
      invariant forall j :: |list| <= j < |r| ==> r[j] !in r[..j] && r[j] in rdp
      invariant forall m :: 0 <= m < k ==> rdp[m] in r
    {
      if rdp[k] !in r {
        AppendFresh(list, r, rdp, rdp[k]);
        r := r + [rdp[k]];
      }
      k := k + 1;
    }
  }

  /** Appending an item not listed yet, taken from `rdp`, keeps the loop's
      description of the appended part. */
  lemma AppendFresh<T(!new)>(list: seq<T>, r: seq<T>, rdp: seq<T>, x: T)
    requires |r| >= |list| && r[..|list|] == list
    requires forall j :: |list| <= j < |r| ==> r[j] !in r[..j] && r[j] in rdp
    requires x !in r && x in rdp
    ensures var r' := r + [x];
            |r'| >= |list| && r'[..|list|] == list &&
            forall j :: |list| <= j < |r'| ==> r'[j] !in r'[..j] && r'[j] in rdp
  {
    var r' := r + [x];
    assert r'[..|r|] == r;
    forall j | |list| <= j < |r'|
      ensures r'[j] !in r'[..j] && r'[j] in rdp
    {
      if j < |r| {
        assert r'[..j] == r[..j];
      }
    }
  }

  /** Taking away a subset removes exactly its size. */
  lemma CardMinus<T(!new)>(S: set<T>, N: set<T>)
    requires N <= S
    ensures |S - N| == |S| - |N|
  {
    assert S == (S - N) + N;
    assert (S - N) * N == {};
  }

  /** A list whose items past `n` are new and distinct covers as many more
      distinct items as it has more items. */
  lemma {:induction false} ElemsGrow<T(!new)>(list: seq<T>, n: nat)
    requires n <= |list|
    requires forall j :: n <= j < |list| ==> list[j] !in list[..j]
    ensures |Elems(list)| == |Elems(list[..n])| + (|list| - n)
    decreases |list| - n
  {
    if n < |list| {
      var m := |list| - 1;
      assert list[..m][..n] == list[..n];
      ElemsGrow(list[..m], n);
      assert Elems(list) == Elems(list[..m]) + {list[m]} by {
        assert list == list[..m] + [list[m]];
      }
    } else {
      assert list[..n] == list;
    }
  }

  /** The worklist loop of `orderedNodeDependenciesAt`: walk the list,
      appending each need of the current item that is not yet listed. */
  method RequiredSources<T(==,!new)>(needs: T -> seq<T>, ghost U: set<T>, target: T, recursion: bool)
    returns (list: seq<T>)
    requires target in U && NeedsClosed(needs, U)
    ensures Discovered(needs, U, target, recursion, list)
  {
    ghost var R := NeedsRelation(needs, U);
    var first := needs(target);
    list := first;
    forall y | y in first
      ensures y in Closure.Reachable(R, target)
    {
      Closure.ReachesStep(R, target, y);
    }
    var i := 0;
    while i < |list|
      invariant 0 <= i <= |list|
      invariant |list| >= |first| && list[..|first|] == first
      invariant !recursion ==> list == first
      invariant forall j :: |first| <= j < |list| ==> list[j] !in list[..j] && NeededEarlier(needs, list, j)
      invariant forall x :: x in list ==> x in U && x in Closure.Reachable(R, target)
      invariant recursion ==> forall k, y :: 0 <= k < i && y in needs(list[k]) ==> y in list
      decreases |U - Elems(list)| + (|list| - i)
    {
      var rdp := needs(list[i]);
      if recursion {
        ghost var before := list;
        list := AppendMissing(list, rdp);
        RequiredStep(needs, U, target, first, before, i, list);
      }
      i := i + 1;
    }
    if recursion {
      var found := Elems(list);
      forall x | x in found
        ensures Closure.Successors(R, x) <= found
      {
        var k :| 0 <= k < |list| && list[k] == x;
      }
      forall b | b in Closure.Reachable(R, target)
        ensures b in list
      {
        var p :| Closure.IsPath(R, p, target, b);
        Closure.ClosedContainsReachable(R, target, found, p, b);
      }
    }
  }

  /** One pass of the worklist keeps its invariants and shrinks its measure. */
  lemma RequiredStep<T(!new)>(needs: T -> seq<T>, U: set<T>, target: T, first: seq<T>,
                     before: seq<T>, i: nat, list: seq<T>)
    requires target in U && NeedsClosed(needs, U) && first == needs(target)
    requires i < |before|
    requires |before| >= |first| && before[..|first|] == first
    requires forall j :: |first| <= j < |before| ==> before[j] !in before[..j] && NeededEarlier(needs, before, j)
    requires forall x :: x in before ==> x in U && x in Closure.Reachable(NeedsRelation(needs, U), target)
    requires forall k, y :: 0 <= k < i && y in needs(before[k]) ==> y in before
    requires |list| >= |before| && list[..|before|] == before
    requires forall j :: |before| <= j < |list| ==> list[j] !in list[..j] && list[j] in needs(before[i])
    requires forall y :: y in needs(before[i]) ==> y in list
    ensures |list| >= |first| && list[..|first|] == first
    ensures forall j :: |first| <= j < |list| ==> list[j] !in list[..j] && NeededEarlier(needs, list, j)
    ensures forall x :: x in list ==> x in U && x in Closure.Reachable(NeedsRelation(needs, U), target)
    ensures forall k, y :: 0 <= k < i + 1 && y in needs(list[k]) ==> y in list
    ensures |U - Elems(list)| + (|list| - (i + 1)) < |U - Elems(before)| + (|before| - i)
  {
    assert list[..|first|] == before[..|first|];
    StepOrder(needs, first, before, i, list);
    StepReach(needs, U, target, before, i, list);
    forall k, y | 0 <= k < i + 1 && y in needs(list[k])
      ensures y in list
    {
      assert list[k] == before[k];
      if k < i {
        assert y in before;
      }
    }
    StepMeasure(U, before, list);
  }

  lemma StepOrder<T(!new)>(needs: T -> seq<T>, first: seq<T>, before: seq<T>, i: nat, list: seq<T>)
    requires i < |before| && |first| <= |before|
    requires forall j :: |first| <= j < |before| ==> before[j] !in before[..j] && NeededEarlier(needs, before, j)
    requires |list| >= |before| && list[..|before|] == before
    requires forall j :: |before| <= j < |list| ==> list[j] !in list[..j] && list[j] in needs(before[i])
    ensures forall j :: |first| <= j < |list| ==> list[j] !in list[..j] && NeededEarlier(needs, list, j)
  {
    forall j | |first| <= j < |list|
      ensures list[j] !in list[..j] && NeededEarlier(needs, list, j)
    {
      if j < |before| {
        assert list[..j] == before[..j];
        var w :| 0 <= w < j && before[j] in needs(before[w]);
        assert list[w] == before[w];
      } else {
        assert list[i] == before[i];
      }
    }
  }

  lemma StepReach<T(!new)>(needs: T -> seq<T>, U: set<T>, target: T, before: seq<T>, i: nat, list: seq<T>)
    requires NeedsClosed(needs, U) && i < |before|
    requires forall x :: x in before ==> x in U && x in Closure.Reachable(NeedsRelation(needs, U), target)
    requires |list| >= |before| && list[..|before|] == before
    requires forall j :: |before| <= j < |list| ==> list[j] in needs(before[i])
    ensures forall x :: x in list ==> x in U && x in Closure.Reachable(NeedsRelation(needs, U), target)
  {
    var R := NeedsRelation(needs, U);
    forall x | x in list
      ensures x in U && x in Closure.Reachable(R, target)
    {
      var j :| 0 <= j < |list| && list[j] == x;
      if j >= |before| {
        var p := before[i];
        assert (p, x) in R;
        Closure.ReachesShape(R, target, p);
        Closure.ReachesExtend(R, target, p, x);
      } else {
        assert x == before[j];
      }
    }
  }

  lemma StepMeasure<T(!new)>(U: set<T>, before: seq<T>, list: seq<T>)
    requires forall x :: x in list ==> x in U
    requires |list| >= |before| && list[..|before|] == before
    requires forall j :: |before| <= j < |list| ==> list[j] !in list[..j]
    ensures |U - Elems(list)| + |list| == |U - Elems(before)| + |before|
  {
    var N := Elems(list) - Elems(before);
    assert Elems(list) == Elems(before) + N by {
      forall x | x in before ensures x in list {
        var j :| 0 <= j < |before| && before[j] == x;
        assert list[j] == x;
      }
    }
    ElemsGrow(list, |before|);
    assert |N| == |list| - |before|;
    CardMinus(U - Elems(before), N);
    assert U - Elems(list) == (U - Elems(before)) - N;
  }

  // ---------------------------------------------------------------------------
  // The dependencies of a node in a graph
  // ---------------------------------------------------------------------------

  /** The providers bound to the inputs `ds` of node `u`, in input order,
      leaving out the node itself and, when only unfulfilled needs count,
      every provider whose data is already present. */
  function Providers(g: Graph, scope: Variables.Scope, u: Uuid, names: seq<string>,
                     onlyUnfulfilled: bool, fulfilled: Uuid -> bool): (r: seq<Uuid>)
    requires Valid(g) && u in g.nodes
    ensures forall p :: p in r ==> p in g.nodes && p != u && !(onlyUnfulfilled && fulfilled(p))
    ensures BindingsOnEdges(g, scope) ==> forall p :: p in r ==> (u, p) in g.edges
    ensures forall name :: name in names && ProviderOf(g, scope, u, name).Some? ==>
      var p := ProviderOf(g, scope, u, name).value;
      p == u || (onlyUnfulfilled && fulfilled(p)) || p in r
  {
    if names == [] then []
    else
      var rest := Providers(g, scope, u, names[1..], onlyUnfulfilled, fulfilled);
      match ProviderOf(g, scope, u, names[0])
      case None => rest
      case Some(p) =>
        if p == u || (onlyUnfulfilled && fulfilled(p)) then rest else [p] + rest
  }

  /** The node an input is bound to. */
  function ProviderOf(g: Graph, scope: Variables.Scope, u: Uuid, name: string): (r: Option<Uuid>)
    requires Valid(g) && u in g.nodes
    ensures r.Some? ==> r.value in g.nodes
    ensures BindingsOnEdges(g, scope) && r.Some? ==> (u, r.value) in g.edges
    ensures r.Some? <==> Binding(g, scope, u, name).Some?
    ensures r.Some? ==> r.value == Binding(g, scope, u, name).value.0
  {
    match Binding(g, scope, u, name)
    case None => None
    case Some((p, _)) => Some(p)
  }

  /** What each node needs: the providers bound to its declared inputs. */
  function NeedsOf(g: Graph, scope: Variables.Scope, onlyUnfulfilled: bool, fulfilled: Uuid -> bool): (needs: Uuid -> seq<Uuid>)
    requires Valid(g)
    ensures forall x :: x in g.nodes ==>
      needs(x) == Providers(g, scope, x, InputNames(g.nodes[x].kind), onlyUnfulfilled, fulfilled)
    ensures NeedsClosed(needs, g.nodes.Keys)
  {
    x => if x in g.nodes then Providers(g, scope, x, InputNames(g.nodes[x].kind), onlyUnfulfilled, fulfilled) else []
  }

  /** The items the worklist discovers, as a set. */
  ghost function DepsOf<T(!new)>(needs: T -> seq<T>, U: set<T>, target: T, recursion: bool): set<T> {
    if recursion then Closure.Reachable(NeedsRelation(needs, U), target) else Elems(needs(target))
  }

  /** The discovered list read backwards, followed by the target when asked
      for. */
  method OrderFrom<T(==,!new)>(needs: T -> seq<T>, ghost U: set<T>, target: T, includeGiven: bool, recursion: bool)
    returns (order: seq<T>)
    requires target in U && NeedsClosed(needs, U)
    ensures exists list ::
      Discovered(needs, U, target, recursion, list) &&
      order == Reversed(list) + (if includeGiven then [target] else [])
    ensures forall x :: x in order <==> (includeGiven && x == target) || x in DepsOf(needs, U, target, recursion)
  {
    var list := RequiredSources(needs, U, target, recursion);
    order := Reversed(list) + (if includeGiven then [target] else []);
    forall x | x in order
      ensures (includeGiven && x == target) || x in list
    {
      var j :| 0 <= j < |order| && order[j] == x;
      if j < |list| {
        assert x == list[|list| - 1 - j];
      }
    }
    forall x | x in list
      ensures x in order
    {
      var j :| 0 <= j < |list| && list[j] == x;
      assert order[|list| - 1 - j] == x;
    }
  }

  /** The nodes `orderedNodeDependenciesAt` lists, apart from the given one. */
  ghost function Dependencies(g: Graph, scope: Variables.Scope, u: Uuid, onlyUnfulfilled: bool,
                              fulfilled: Uuid -> bool, recursion: bool): set<Uuid>
    requires Valid(g)
  {
    DepsOf(NeedsOf(g, scope, onlyUnfulfilled, fulfilled), g.nodes.Keys, u, recursion)
  }

  /** The first error among `rs`, if any. */
  function FirstError<T>(rs: seq<Result<T>>): (r: Result<()>)
    ensures r.Ok? <==> forall i :: 0 <= i < |rs| ==> rs[i].Ok?
    ensures r.Err? ==> exists i :: 0 <= i < |rs| && rs[i] == Err(r.reason) && forall j :: 0 <= j < i ==> rs[j].Ok?
  {
    if rs == [] then Ok(())
    else if rs[0].Err? then Err(rs[0].reason)
    else
      var r := FirstError(rs[1..]);
      assert r.Err? ==>
        exists i :: 0 <= i < |rs[1..]| && rs[1..][i] == Err(r.reason) && forall j :: 0 <= j < i ==> rs[1..][j].Ok?;
      r
  }

  /** `sceneGraphHandle` on node `x` under the types `nodeOutputType`
      reports for its outputs: the error of the first output whose packet
      cannot be built, if any. */
  function HandleCheck(g: Graph, scope: Variables.Scope, x: Uuid, ghost rank: map<Uuid, nat>): (r: Result<()>)
    requires Valid(g) && BindingsOnEdges(g, scope) && Closure.IsRanking(rank, g.nodes.Keys, g.edges)
    requires x in g.nodes
    ensures var h := Nodes.Handled(g.nodes[x], Specialization(g, scope, x, rank), scope);
      (r.Ok? <==> forall i :: 0 <= i < |h| ==> h[i].Ok?) &&
      (r.Err? ==> exists i :: 0 <= i < |h| && h[i] == Err(r.reason) && forall j :: 0 <= j < i ==> h[j].Ok?)
  {
    FirstError(Nodes.Handled(g.nodes[x], Specialization(g, scope, x, rank), scope))
  }

  /** `HandleCheck` on every node of the graph. */
  function HandleOf(g: Graph, scope: Variables.Scope, ghost rank: map<Uuid, nat>): (handle: Uuid -> Result<()>)
    requires Valid(g) && BindingsOnEdges(g, scope) && Closure.IsRanking(rank, g.nodes.Keys, g.edges)
    ensures forall x :: x in g.nodes ==> handle(x) == HandleCheck(g, scope, x, rank)
  {
    x => if x in g.nodes then HandleCheck(g, scope, x, rank) else Ok(())
  }

  /** A walk from `target` along `R` meets a node that `handle` rejects. */
  ghost predicate WalkFails<T(!new)>(R: set<(T, T)>, handle: T -> Result<()>, target: T) {
    exists x :: (x == target || x in Closure.Reachable(R, target)) && handle(x).Err?
  }

  /** `buildSceneGraph(n)` raises: some node among `n` and the nodes before
      it (the nodes `networkx.dfs_postorder_nodes` visits) cannot be
      handled. */
  ghost predicate SceneGraphFails(g: Graph, scope: Variables.Scope, u: Uuid, rank: map<Uuid, nat>)
    requires Valid(g) && BindingsOnEdges(g, scope) && Closure.IsRanking(rank, g.nodes.Keys, g.edges)
  {
    WalkFails(g.edges, HandleOf(g, scope, rank), u)
  }

  /** When the scene graph at `u` can be built, `u` itself is handled. */
  lemma HandledWhenBuilt(g: Graph, scope: Variables.Scope, u: Uuid, rank: map<Uuid, nat>)
    requires Valid(g) && BindingsOnEdges(g, scope) && Closure.IsRanking(rank, g.nodes.Keys, g.edges)
    requires u in g.nodes && !SceneGraphFails(g, scope, u, rank)
    ensures HandleCheck(g, scope, u, rank).Ok?
  {
    assert HandleOf(g, scope, rank)(u) == HandleCheck(g, scope, u, rank);
  }

  /** The loop of `buildSceneGraph(n)` over `n` and the nodes `R` reaches
      from it, each handled by `handle`; the first that fails raises. */
  method SceneWalk<T(==,!new)>(R: set<(T, T)>, handle: T -> Result<()>, target: T) returns (r: Result<()>)
    ensures r.Err? <==> WalkFails(R, handle, target)
  {
    var before := Closure.ReachableFrom(R, target);
    var visit := {target} + before;
    var rest := visit;
    while rest != {}
      invariant rest <= visit
      invariant forall x :: x in visit - rest ==> handle(x).Ok?
      decreases |rest|
    {
      var x :| x in rest;
      rest := rest - {x};
      var handled := handle(x);
      if handled.Err? {
        return Err(handled.reason);
      }
    }
    r := Ok(());
  }

  /** `orderedNodeDependenciesAt` over a relation: the scene graph at the
      target is built first, which may raise, then the discovered list is
      read backwards. */
  method DependenciesFrom<T(==,!new)>(needs: T -> seq<T>, ghost U: set<T>, R: set<(T, T)>, handle: T -> Result<()>,
                                      target: T, includeGiven: bool, recursion: bool)
    returns (r: Result<seq<T>>)
    requires target in U && NeedsClosed(needs, U)
    ensures r.Err? <==> WalkFails(R, handle, target)
    ensures r.Ok? ==> exists list ::
      Discovered(needs, U, target, recursion, list) &&
      r.value == Reversed(list) + (if includeGiven then [target] else [])
    ensures r.Ok? ==> forall x :: x in r.value <==> (includeGiven && x == target) || x in DepsOf(needs, U, target, recursion)
  {
    var built := SceneWalk(R, handle, target);
    if built.Err? {
      return Err(built.reason);
    }
    var order := OrderFrom(needs, U, target, includeGiven, recursion);
    r := Ok(order);
  }

  /** `orderedNodeDependenciesAt(n, includeGivenNode, onlyUnfulfilled,
      recursion)`: the discovered list read backwards, followed by the node
      itself when asked for. Its first `nodeOrderedDataPackets(n)` builds
      the scene graph at `n`, and the call raises when that raises; the
      later calls build the scene graphs of nodes before `n`, which that
      first walk already covered. */
  method OrderedDependencies(g: Graph, scope: Variables.Scope, u: Uuid, includeGiven: bool,
                             onlyUnfulfilled: bool, fulfilled: Uuid -> bool, recursion: bool,
                             ghost rank: map<Uuid, nat>)
    returns (r: Result<seq<Uuid>>)
    requires Valid(g) && BindingsOnEdges(g, scope) && Closure.IsRanking(rank, g.nodes.Keys, g.edges)
    requires u in g.nodes
    ensures r.Err? <==> SceneGraphFails(g, scope, u, rank)
    ensures r.Ok? ==> exists list ::
      Discovered(NeedsOf(g, scope, onlyUnfulfilled, fulfilled), g.nodes.Keys, u, recursion, list) &&
      r.value == Reversed(list) + (if includeGiven then [u] else [])
    ensures r.Ok? ==> forall x :: x in r.value <==>
      (includeGiven && x == u) || x in Dependencies(g, scope, u, onlyUnfulfilled, fulfilled, recursion)
  {
    r := DependenciesFrom(NeedsOf(g, scope, onlyUnfulfilled, fulfilled), g.nodes.Keys, g.edges, HandleOf(g, scope, rank),
                          u, includeGiven, recursion);
  }

  /** A path of a smaller relation is a path of a larger one. */
  lemma ReachesWithin(R: set<(Uuid, Uuid)>, S: set<(Uuid, Uuid)>, a: Uuid, b: Uuid)
    requires R <= S && Closure.Reaches(R, a, b)
    ensures Closure.Reaches(S, a, b)
  {
    var p :| Closure.IsPath(R, p, a, b);
    assert Closure.IsPath(S, p, a, b);
  }

  /** When bindings are backed by edges, a node's needs are edges of the
      graph, so everything it depends on is before it; in an acyclic graph
      a node never depends on itself. */
  lemma DependenciesBefore(g: Graph, scope: Variables.Scope, u: Uuid, onlyUnfulfilled: bool,
                           fulfilled: Uuid -> bool, recursion: bool)
    requires Valid(g) && BindingsOnEdges(g, scope) && u in g.nodes
    ensures Dependencies(g, scope, u, onlyUnfulfilled, fulfilled, recursion) <= Before(g, u)
    ensures Acyclic(g) ==> u !in Dependencies(g, scope, u, onlyUnfulfilled, fulfilled, recursion)
  {
    var needs := NeedsOf(g, scope, onlyUnfulfilled, fulfilled);
    var R := NeedsRelation(needs, g.nodes.Keys);
    assert R <= g.edges;
    forall b | b in Dependencies(g, scope, u, onlyUnfulfilled, fulfilled, recursion)
      ensures b in Before(g, u)
    {
      if recursion {
        ReachesWithin(R, g.edges, u, b);
        Closure.ReachesShape(g.edges, u, b);
      } else {
        assert (u, b) in R;
        Closure.ReachesStep(g.edges, u, b);
      }
    }
    if Acyclic(g) {
      NotBeforeItself(g, u);
    }
  }

  /** The availability test that takes no data as present. */
  function NothingPresent(): (fulfilled: Uuid -> bool)
    ensures forall p :: !fulfilled(p)
  {
    p => false
  }

  /** What `allNodesDependingOnNode(n, recursion)` returns, as a set: the
      nodes after `n` whose dependencies (every need counted) include `n`. */
  ghost function DependingOn(g: Graph, scope: Variables.Scope, u: Uuid, recursion: bool): set<Uuid>
    requires Valid(g)
  {
    set a | a in After(g, u) && u in Dependencies(g, scope, a, false, NothingPresent(), recursion)
  }

  /** Every node after another is in the graph. */
  lemma AfterInGraph(g: Graph, u: Uuid)
    requires Valid(g)
    ensures After(g, u) <= g.nodes.Keys
  {
    forall a | a in After(g, u)
      ensures a in g.nodes
    {
      var e :| e in Closure.Converse(g.edges) && e.1 == a;
      assert (e.1, e.0) in g.edges;
    }
  }

  /** `allNodesDependingOnNode(n)` raises: the scene graph of some node
      after `n` cannot be built. */
  ghost predicate DependentsFail(g: Graph, scope: Variables.Scope, u: Uuid, rank: map<Uuid, nat>)
    requires Valid(g) && BindingsOnEdges(g, scope) && Closure.IsRanking(rank, g.nodes.Keys, g.edges)
  {
    exists a :: a in After(g, u) && a in g.nodes && SceneGraphFails(g, scope, a, rank)
  }

  /** The loop of `allNodesDependingOnNode`: the dependencies of every node
      after `n` are listed, which raises as `orderedNodeDependenciesAt`
      does. (The source's graph query raises for a node outside the
      graph.) */
  method AllNodesDependingOn(g: Graph, scope: Variables.Scope, u: Uuid, recursion: bool, ghost rank: map<Uuid, nat>)
    returns (r: Result<set<Uuid>>)
    requires Valid(g) && BindingsOnEdges(g, scope) && Closure.IsRanking(rank, g.nodes.Keys, g.edges)
    requires u in g.nodes
    ensures r.Err? <==> DependentsFail(g, scope, u, rank)
    ensures r.Ok? ==> r.value == DependingOn(g, scope, u, recursion)
  {
    var after := AllNodesAfter(g, u);
    AfterInGraph(g, u);
    r := DependingOnFrom(NeedsOf(g, scope, false, NothingPresent()), g.nodes.Keys, g.edges, HandleOf(g, scope, rank),
                         after, u, recursion);
  }

  /** The loop of `allNodesDependingOnNode` over a set of candidates: each
      candidate's dependencies are listed, which may raise, and the
      candidates whose dependencies include `u` are kept. */
  method DependingOnFrom<T(==,!new)>(needs: T -> seq<T>, ghost U: set<T>, R: set<(T, T)>, handle: T -> Result<()>,
                                     after: set<T>, u: T, recursion: bool)
    returns (r: Result<set<T>>)
    requires after <= U && NeedsClosed(needs, U)
    ensures r.Err? <==> exists a :: a in after && WalkFails(R, handle, a)
    ensures r.Ok? ==> r.value == set a | a in after && u in DepsOf(needs, U, a, recursion)
  {
    var found := {};
    var rest := after;
    while rest != {}
      invariant rest <= after
      invariant forall a :: a in found <==> a in after - rest && u in DepsOf(needs, U, a, recursion)
      invariant forall a :: a in after - rest ==> !WalkFails(R, handle, a)
      decreases |rest|
    {
      var a :| a in rest;
      rest := rest - {a};
      var depends := DependenciesFrom(needs, U, R, handle, a, false, recursion);
      if depends.Err? {
        return Err(depends.reason);
      }
      if u in depends.value {
        found := found + {a};
      }
    }
    r := Ok(found);
  }

  /** With bindings backed by edges, the "after" filter of
      `allNodesDependingOnNode` drops nothing: the result is every node of
      the graph that depends on `n`. */
  lemma DependingOnExact(g: Graph, scope: Variables.Scope, u: Uuid, recursion: bool, a: Uuid)
    requires Valid(g) && BindingsOnEdges(g, scope) && a in g.nodes
    ensures a in DependingOn(g, scope, u, recursion) <==>
      u in Dependencies(g, scope, a, false, NothingPresent(), recursion)
  {
    if u in Dependencies(g, scope, a, false, NothingPresent(), recursion) {
      DependenciesBefore(g, scope, a, false, NothingPresent(), recursion);
      BeforeAfter(g, a, u);
    }
  }

  /** `nodeOutputGoesTo(n, output)`: the inputs of the direct dependents of
      `n` whose value names that output; finding the dependents raises as
      `allNodesDependingOnNode` does. */
  method OutputGoesTo(g: Graph, scope: Variables.Scope, u: Uuid, outName: string, ghost rank: map<Uuid, nat>)
    returns (r: Result<set<(Uuid, string)>>)
    requires Valid(g) && BindingsOnEdges(g, scope) && Closure.IsRanking(rank, g.nodes.Keys, g.edges)
    requires u in g.nodes
    ensures r.Err? <==> DependentsFail(g, scope, u, rank)
    ensures r.Ok? ==> forall d, name :: (d, name) in r.value <==>
      d in DependingOn(g, scope, u, false) && name in InputNames(g.nodes[d].kind) &&
      Binding(g, scope, d, name) == Some((u, outName))
  {
    var dependents := AllNodesDependingOn(g, scope, u, false, rank);
    if dependents.Err? {
      return Err(dependents.reason);
    }
    AfterInGraph(g, u);
    var pairs := InputsBoundTo(g, scope, dependents.value, u, outName);
    r := Ok(pairs);
  }

  /** The inputs of the nodes `ds` whose value names output `outName` of
      `u`. */
  method InputsBoundTo(g: Graph, scope: Variables.Scope, ds: set<Uuid>, u: Uuid, outName: string)
    returns (r: set<(Uuid, string)>)
    requires Valid(g) && ds <= g.nodes.Keys
    ensures forall d, name :: (d, name) in r <==>
      d in ds && name in InputNames(g.nodes[d].kind) && Binding(g, scope, d, name) == Some((u, outName))
  {
    var names := (d: Uuid) => if d in g.nodes then InputNames(g.nodes[d].kind) else [];
    var hit := (d: Uuid, name: string) => d in g.nodes && Binding(g, scope, d, name) == Some((u, outName));
    r := Collect(ds, names, hit);
    forall d, name
      ensures (d, name) in r <==> d in ds && name in InputNames(g.nodes[d].kind) && Binding(g, scope, d, name) == Some((u, outName))
    {
      assert d in ds ==> d in g.nodes;
    }
  }

  /** The two nested loops of `nodeOutputGoesTo`: every pair of an item and
      one of its names that passes the test. */
  method Collect<T(==), N(==)>(items: set<T>, names: T -> seq<N>, hit: (T, N) -> bool) returns (r: set<(T, N)>)
    ensures forall d, name :: (d, name) in r <==> d in items && name in names(d) && hit(d, name)
  {
    r := {};
    var rest := items;
    while rest != {}
      invariant rest <= items
      invariant forall d, name :: (d, name) in r <==> d in items - rest && name in names(d) && hit(d, name)
      decreases |rest|
    {
      var d :| d in rest;
      rest := rest - {d};
      var ns := names(d);
      var k := 0;
      while k < |ns|
        invariant 0 <= k <= |ns|
        invariant forall d', name :: (d', name) in r <==>
          (d' in items - rest - {d} && name in names(d') && hit(d', name)) ||
          (d' == d && name in ns[..k] && hit(d, name))
      {
        if hit(d, ns[k]) {
          r := r + {(d, ns[k])};
        }
        assert ns[..k + 1] == ns[..k] + [ns[k]];
        k := k + 1;
      }
      assert ns[..k] == ns;
    }
  }

  /** The names of a kind's declared inputs, in order. */
  function InputNames(k: Nodes.Kind): (r: seq<string>)
    ensures |r| == |Nodes.InputDecls(k)| && forall i :: 0 <= i < |r| ==> r[i] == Nodes.InputDecls(k)[i].name
  {
    seq(|Nodes.InputDecls(k)|, i requires 0 <= i < |Nodes.InputDecls(k)| => Nodes.InputDecls(k)[i].name)
  }

  /** In an acyclic graph whose bindings lie on edges, `nodeOutputGoesTo`
      finds every input bound to the output. */
  lemma OutputGoesToExact(g: Graph, scope: Variables.Scope, u: Uuid, outName: string, d: Uuid, name: string)
    requires Valid(g) && Acyclic(g) && BindingsOnEdges(g, scope) && u in g.nodes && d in g.nodes
    requires name in InputNames(g.nodes[d].kind)
    ensures d in DependingOn(g, scope, u, false) && Binding(g, scope, d, name) == Some((u, outName)) <==>
      Binding(g, scope, d, name) == Some((u, outName))
  {
    if Binding(g, scope, d, name) == Some((u, outName)) {
      assert ProviderOf(g, scope, d, name) == Some(u);
      assert u != d by {
        var rank :| Closure.IsRanking(rank, g.nodes.Keys, g.edges);
        assert (d, u) in g.edges;
      }
      assert u in Providers(g, scope, d, InputNames(g.nodes[d].kind), false, NothingPresent());
      DependingOnExact(g, scope, u, false, d);
    }
  }

  // ---------------------------------------------------------------------------
  // Packets flowing out of and into a node
  // ---------------------------------------------------------------------------

  /** The specialisation dictionary `nodeOutputDataPacket` hands to
      `sceneGraphHandle`: each output's reported type. */
  function Specialization(g: Graph, scope: Variables.Scope, u: Uuid, ghost rank: map<Uuid, nat>): (m: map<string, PacketType>)
    requires Valid(g) && BindingsOnEdges(g, scope) && Closure.IsRanking(rank, g.nodes.Keys, g.edges)
    requires u in g.nodes
    ensures forall name :: name in m <==> name in Nodes.OutputNames(g.nodes[u])
    ensures forall name :: name in m ==>
      Nodes.OutputKey(name) in g.nodes[u].props && m[name] == OutputType(g, scope, u, name, rank)
  {
    map name | name in Nodes.OutputNames(g.nodes[u]) :: OutputType(g, scope, u, name, rank)
  }

  /** `nodeOutputDataPacket(n, output)`: the FIRST packet `sceneGraphHandle`
      builds, whichever output is asked about; a node without outputs makes
      the indexing fail. */
  function OutputDataPacket(g: Graph, scope: Variables.Scope, u: Uuid, ghost rank: map<Uuid, nat>): (r: Result<Packets.Packet>)
    requires Valid(g) && BindingsOnEdges(g, scope) && Closure.IsRanking(rank, g.nodes.Keys, g.edges)
    requires u in g.nodes
    ensures r.Err? && Nodes.OutputNames(g.nodes[u]) == [] ==> r == Err("list index out of range")
    ensures Nodes.OutputNames(g.nodes[u]) != [] ==>
      r == Nodes.HandleOutput(g.nodes[u], Nodes.OutputNames(g.nodes[u])[0], Specialization(g, scope, u, rank), scope)
  {
    var packets := Nodes.Handled(g.nodes[u], Specialization(g, scope, u, rank), scope);
    Nodes.HandledByOutput(g.nodes[u], Specialization(g, scope, u, rank), scope);
    if |packets| == 0 then Err("list index out of range") else packets[0]
  }

  /** When bindings are well typed, the first output of a node yields a
      packet whenever its dictionary holds every slot its declared type can
      carry and its range parses. */
  lemma OutputDataPacketOk(g: Graph, scope: Variables.Scope, u: Uuid, rank: map<Uuid, nat>)
    requires Valid(g) && BindingsOnEdges(g, scope) && TypedBindings(g, scope) && Closure.IsRanking(rank, g.nodes.Keys, g.edges)
    requires u in g.nodes && Nodes.OutputNames(g.nodes[u]) != []
    requires var p := Nodes.OutputNamed(g.nodes[u], Nodes.OutputNames(g.nodes[u])[0]).value;
      Nodes.PossibleSlots(p.packetType) <= p.files.Keys && Nodes.HandleRange(scope, p).Ok?
    ensures OutputDataPacket(g, scope, u, rank).Ok?
  {
    var n := g.nodes[u];
    var name := Nodes.OutputNames(n)[0];
    OutputTypePossible(g, scope, u, name, rank);
    Nodes.HandleAcceptedType(n, name, Specialization(g, scope, u, rank), scope);
  }

  /** `nodeInputDataPacket(n, input)`: nothing for an unbound input, else
      the packet of the provider. */
  function InputDataPacket(g: Graph, scope: Variables.Scope, u: Uuid, name: string, ghost rank: map<Uuid, nat>): (r: Result<Option<Packets.Packet>>)
    requires Valid(g) && BindingsOnEdges(g, scope) && Closure.IsRanking(rank, g.nodes.Keys, g.edges)
    requires u in g.nodes
    ensures Binding(g, scope, u, name).None? ==> r == Ok(None)
    ensures Binding(g, scope, u, name).Some? ==>
      var p := Binding(g, scope, u, name).value.0;
      (r.Ok? <==> OutputDataPacket(g, scope, p, rank).Ok?) &&
      (r.Ok? ==> r.value == Some(OutputDataPacket(g, scope, p, rank).value))
  {
    match Binding(g, scope, u, name)
    case None => Ok(None)
    case Some((p, _)) =>
      var packet :- OutputDataPacket(g, scope, p, rank);
      Ok(Some(packet))
  }

  // ---------------------------------------------------------------------------
  // Stale flags
  // ---------------------------------------------------------------------------

  /** `setNodeStale(n, state)`: the flag is recorded whether or not the node
      is in the graph. */
  function SetStale(g: Graph, u: Uuid, state: bool): (r: Graph)
    ensures StaleState(r, u) == Ok(state)
    ensures forall v :: v != u ==> StaleState(r, v) == StaleState(g, v)
    ensures r.nodes == g.nodes && r.edges == g.edges && r.groups == g.groups
  {
    Graph(g.nodes, g.edges, g.stale[u := state], g.groups)
  }

  // ---------------------------------------------------------------------------
  // Groups
  // ---------------------------------------------------------------------------

  /** No two groups hold the same set of nodes. */
  predicate DistinctGroups(g: Graph) {
    forall a, b :: a in g.groups && b in g.groups && a != b ==> g.groups[a] != g.groups[b]
  }

  /** `addNodeGroup(name, nodes)`: refused when a group already holds exactly
      these nodes or already has the name. */
  function AddGroup(g: Graph, name: string, members: set<Uuid>): (r: Result<Graph>)
    ensures r.Err? <==> members in g.groups.Values || name in g.groups
    ensures r.Ok? ==>
      r.value.groups == g.groups[name := members] &&
      r.value.nodes == g.nodes && r.value.edges == g.edges && r.value.stale == g.stale
  {
    if members in g.groups.Values then Err("NodeGroup already present in DAG group dict.")
    else if name in g.groups then Err("NodeGroup named " + name + " already exists in DAG group dict.")
    else Ok(Graph(g.nodes, g.edges, g.stale, g.groups[name := members]))
  }

  /** Groups built by `addNodeGroup` alone never repeat a set of nodes. */
  lemma AddGroupDistinct(g: Graph, name: string, members: set<Uuid>)
    requires DistinctGroups(g) && AddGroup(g, name, members).Ok?
    ensures DistinctGroups(AddGroup(g, name, members).value)
  {
    var h := AddGroup(g, name, members).value;
    forall a, b | a in h.groups && b in h.groups && a != b
      ensures h.groups[a] != h.groups[b]
    {
      if a == name {
        assert g.groups[b] in g.groups.Values;
      } else if b == name {
        assert g.groups[a] in g.groups.Values;
      }
    }
  }

  /** `removeNodeGroup(nameToRemove=name)` with a non-empty name. */
  function RemoveGroupNamed(g: Graph, name: string): (r: Result<Graph>)
    ensures r.Err? <==> name !in g.groups
    ensures r.Ok? ==>
      r.value.groups == g.groups - {name} &&
      r.value.nodes == g.nodes && r.value.edges == g.edges && r.value.stale == g.stale
  {
    if name !in g.groups then Err("NodeGroup not present in DAG group dict.")
    else Ok(Graph(g.nodes, g.edges, g.stale, g.groups - {name}))
  }

  /** Adding a group and removing it by name restores the groups. */
  lemma AddRemoveGroup(g: Graph, name: string, members: set<Uuid>)
    requires AddGroup(g, name, members).Ok?
    ensures RemoveGroupNamed(AddGroup(g, name, members).value, name) == Ok(g)
  {
    assert g.groups[name := members] - {name} == g.groups;
  }

  /** `nodeGroupCount(n)`: how many groups hold the node. */
  function GroupCount(g: Graph, u: Uuid): (r: nat)
    ensures r == 0 <==> forall k :: k in g.groups ==> u !in g.groups[k]
    ensures r > 1 <==> exists k, k' :: k in g.groups && k' in g.groups && k != k' && u in g.groups[k] && u in g.groups[k']
    ensures r <= |g.groups|
  {
    var holding := set k | k in g.groups && u in g.groups[k];
    assert forall k :: k in g.groups && u in g.groups[k] ==> k in holding;
    CountHolding(holding, g.groups.Keys);
    |holding|
  }

  /** A subset of the keys is no larger than the keys, and has two members
      exactly when its size exceeds one. */
  lemma CountHolding<K>(holding: set<K>, keys: set<K>)
    requires holding <= keys
    ensures |holding| <= |keys|
    ensures |holding| > 1 <==> exists k, k' :: k in holding && k' in holding && k != k'
  {
    assert |keys| == |holding| + |keys - holding|;
    if |holding| > 1 {
      var k :| k in holding;
      assert |holding - {k}| == |holding| - 1;
      var k' :| k' in holding - {k};
    }
    if exists k, k' :: k in holding && k' in holding && k != k' {
      var k, k' :| k in holding && k' in holding && k != k';
      assert {k, k'} <= holding;
      assert |holding| == |{k, k'}| + |holding - {k, k'}|;
    }
  }

  /** `nodeGroupName(nodes)`: a group holding exactly these nodes, if any.
      (Which one, when several do, depends on the dictionary's order.) */
  method GroupName(g: Graph, members: set<Uuid>) returns (r: Option<string>)
    ensures r.None? <==> members !in g.groups.Values
    ensures r.Some? ==> r.value in g.groups && g.groups[r.value] == members
    ensures DistinctGroups(g) && r.Some? ==> forall k :: k in g.groups && g.groups[k] == members ==> k == r.value
  {
    if members !in g.groups.Values {
      return None;
    }
    var key :| key in g.groups && g.groups[key] == members;
    return Some(key);
  }

  /** `nodeInGroupNamed(n)`: a group holding the node, if any. */
  method GroupOf(g: Graph, u: Uuid) returns (r: Option<string>)
    ensures r.None? <==> GroupCount(g, u) == 0
    ensures r.Some? ==> r.value in g.groups && u in g.groups[r.value]
  {
    if GroupCount(g, u) == 0 {
      return None;
    }
    var key :| key in g.groups && u in g.groups[key];
    return Some(key);
  }

  /** `groupIndicesInExecutionList(group, list)`: the first position holding
      a member, and the position before the first non-member after it; the
      end stays unknown when the members run to the end of the list. */
  method GroupIndices<T(==)>(group: set<T>, list: seq<T>) returns (start: Option<nat>, end: Option<nat>)
    ensures start.None? <==> forall i :: 0 <= i < |list| ==> list[i] !in group
    ensures start.Some? ==>
      start.value < |list| && list[start.value] in group &&
      forall i :: 0 <= i < start.value ==> list[i] !in group
    ensures end.Some? ==>
      start.Some? && start.value <= end.value && end.value + 1 < |list| &&
      list[end.value + 1] !in group && forall i :: start.value <= i <= end.value ==> list[i] in group
    ensures start.Some? && end.None? ==> forall i :: start.value <= i < |list| ==> list[i] in group
  {
    start, end := None, None;
    var tracking := false;
    var i := 0;
    while i < |list|
      invariant 0 <= i <= |list|
      invariant end.None?
      invariant tracking <==> start.Some?
      invariant start.None? ==> forall j :: 0 <= j < i ==> list[j] !in group
      invariant start.Some? ==>
        start.value < i && list[start.value] in group &&
        (forall j :: 0 <= j < start.value ==> list[j] !in group) &&
        (forall j :: start.value <= j < i ==> list[j] in group)
    {
      if !tracking && list[i] in group {
        start := Some(i);
        tracking := true;
      }
      if tracking && list[i] !in group {
        end := Some(i - 1);
        tracking := false;
        break;
      }
      i := i + 1;
    }
  }

  // ---------------------------------------------------------------------------
  // Safe node names
  // ---------------------------------------------------------------------------

  /** The number of trailing characters that are not digits. */
  function TrailingNonDigits(s: string): (n: nat)
    ensures n <= |s|
    ensures forall j :: |s| - n <= j < |s| ==> !IsDigit(s[j])
    ensures n < |s| ==> IsDigit(s[|s| - n - 1])
    decreases |s|
  {
    if |s| > 0 && !IsDigit(s[|s| - 1]) then 1 + TrailingNonDigits(s[..|s| - 1]) else 0
  }

  /** The group `(.*[^\d]+)` matches all of `p`: `p` ends in a non-digit and
      the part before its final run of non-digits holds no newline. */
  predicate PrefixMatches(p: string) {
    |p| >= 1 && !IsDigit(p[|p| - 1]) && '\n' !in p[..|p| - TrailingNonDigits(p)]
  }

  /** `re.match(r"(.*[^\d]+)([\d]+)$", s).groups()`: the prefix and the
      trailing digits, or nothing when the pattern fails. */
  function VersionSplit(s: string): (r: Option<(string, string)>)
    ensures r.Some? ==> s == r.value.0 + r.value.1 && |r.value.1| >= 1 && AllDigits(r.value.1) && PrefixMatches(r.value.0)
    ensures r.None? <==> Util.TrailingDigits(s) == 0 || !PrefixMatches(s[..|s| - Util.TrailingDigits(s)])
  {
    var d := Util.TrailingDigits(s);
    if d >= 1 && PrefixMatches(s[..|s| - d]) then Some((s[..|s| - d], s[|s| - d..])) else None
  }

  /** The pattern splits a matching prefix followed by digits back into the two. */
  lemma VersionSplitOf(p: string, v: string)
    requires PrefixMatches(p) && |v| >= 1 && AllDigits(v)
    ensures VersionSplit(p + v) == Some((p, v))
  {
    var s := p + v;
    Util.TrailingDigitsIs(s, |v|);
    assert s[..|s| - |v|] == p;
    assert s[|s| - |v|..] == v;
  }

  /** The name the loop of `safeNodeName` first examines for a trailing
      number: a name ending in a non-digit gets `1` appended. */
  function FirstNumbered(s: string): string {
    if s != "" && !IsDigit(s[|s| - 1]) then s + "1" else s
  }

  /** Every name a node of the graph carries. */
  ghost function Names(g: Graph): set<string> {
    set u | u in g.nodes :: g.nodes[u].name
  }

  /** The names among `N` made of `p` and digits worth at least `least`. */
  ghost function NumberedFrom(N: set<string>, p: string, least: nat): set<string> {
    set x | x in N && NumberedAtLeast(x, p, least)
  }

  /** `x` is `p` followed by digits worth at least `least`. */
  ghost predicate NumberedAtLeast(x: string, p: string, least: nat) {
    |x| > |p| && x[..|p|] == p && AllDigits(x[|p|..]) && DigitsValue(x[|p|..]) >= least
  }

  /** What is left for the loop of `safeNodeName` to step over. */
  ghost function NamesAhead(g: Graph, s: string): nat {
    match VersionSplit(s)
    case None => 0
    case Some((p, v)) => |NumberedFrom(Names(g), p, DigitsValue(v))|
  }

  /** `safeNodeName(name)`: the name itself when no node carries it;
      otherwise, after appending `1` to a name ending in a non-digit, the
      trailing number is counted up, keeping its width, until the name is
      free. A numbered name the pattern cannot split raises. */
  method SafeNodeName(g: Graph, nodeName: string) returns (r: Result<string>)
    ensures r.Ok? ==> !HasNodeNamed(g, r.value)
    ensures !HasNodeNamed(g, nodeName) ==> r == Ok(nodeName)
    ensures r.Err? <==>
      HasNodeNamed(g, nodeName) && HasNodeNamed(g, FirstNumbered(nodeName)) && VersionSplit(FirstNumbered(nodeName)).None?
    ensures r.Ok? && HasNodeNamed(g, nodeName) && r.value != FirstNumbered(nodeName) ==>
      CountedUp(FirstNumbered(nodeName), r.value)
  {
    var localName := nodeName;
    // The first pass of the source's loop: a name ending in a non-digit
    // gets a `1`; from then on the name always ends in a digit.
    if HasNodeNamed(g, localName) && !IsDigit(localName[|localName| - 1]) {
      localName := localName + "1";
    }
    ghost var start := localName;
    while HasNodeNamed(g, localName)
      invariant start == (if HasNodeNamed(g, nodeName) then FirstNumbered(nodeName) else nodeName)
      invariant localName == start || CountedUp(start, localName)
      invariant localName != start ==> HasNodeNamed(g, start)
      decreases NamesAhead(g, localName)
    {
      match VersionSplit(localName)
      case None =>
        return Err("'NoneType' object has no attribute 'groups'");
      case Some((prefix, version)) =>
        var next := prefix + Util.Incremented(version);
        NextNameAhead(g, localName, prefix, version);
        CountUpStep(start, localName, prefix, version);
        localName := next;
    }
    return Ok(localName);
  }

  /** `b` is `a` with its trailing number counted up, its prefix and at
      least its width kept. */
  predicate CountedUp(a: string, b: string) {
    var first := VersionSplit(a);
    var last := VersionSplit(b);
    first.Some? && last.Some? && last.value.0 == first.value.0 &&
    DigitsValue(last.value.1) > DigitsValue(first.value.1) && |last.value.1| >= |first.value.1|
  }

  lemma CountUpStep(start: string, s: string, p: string, v: string)
    requires s == start || CountedUp(start, s)
    requires VersionSplit(s) == Some((p, v))
    ensures CountedUp(start, p + Util.Incremented(v))
  {
    Util.IncrementedValue(v);
    VersionSplitOf(p, Util.Incremented(v));
  }

  /** One step of the loop leaves fewer numbered names in use ahead. */
  lemma NextNameAhead(g: Graph, s: string, p: string, v: string)
    requires HasNodeNamed(g, s) && VersionSplit(s) == Some((p, v))
    ensures VersionSplit(p + Util.Incremented(v)) == Some((p, Util.Incremented(v)))
    ensures NamesAhead(g, p + Util.Incremented(v)) < NamesAhead(g, s)
  {
    Util.IncrementedValue(v);
    var w := Util.Incremented(v);
    VersionSplitOf(p, w);
    assert s in Names(g) by {
      var u :| u in NodesNamed(g, s);
    }
    NumberedFromShrinks(Names(g), p, s, v);
  }

  /** Stepping past a name in use leaves fewer names ahead. */
  lemma {:induction false} NumberedFromShrinks(N: set<string>, p: string, s: string, v: string)
    requires s in N && s == p + v && |v| >= 1 && AllDigits(v)
    ensures |NumberedFrom(N, p, DigitsValue(v) + 1)| < |NumberedFrom(N, p, DigitsValue(v))|
  {
    var A, B := NumberedFrom(N, p, DigitsValue(v)), NumberedFrom(N, p, DigitsValue(v) + 1);
    NumberedFromStep(N, p, s, v);
    StrictlySmaller(A, B, s);
  }

  lemma {:induction false} NumberedFromStep(N: set<string>, p: string, s: string, v: string)
    requires s in N && s == p + v && |v| >= 1 && AllDigits(v)
    ensures s in NumberedFrom(N, p, DigitsValue(v))
    ensures NumberedFrom(N, p, DigitsValue(v) + 1) <= NumberedFrom(N, p, DigitsValue(v)) - {s}
  {
    assert s[..|p|] == p && s[|p|..] == v;
    assert NumberedAtLeast(s, p, DigitsValue(v));
    assert !NumberedAtLeast(s, p, DigitsValue(v) + 1);
  }

  lemma StrictlySmaller<T(!new)>(A: set<T>, B: set<T>, s: T)
    requires s in A && B <= A - {s}
    ensures |B| < |A|
  {
    CardMinus(A - {s}, B);
    CardMinus(A, {s});
  }

  // ---------------------------------------------------------------------------
  // The graph object
  // ---------------------------------------------------------------------------

  /** The `DAG` object: the network, the stale dictionary and the group
      dictionary are fields its operations update in place. */
  class Dag {
    var nodes: map<Uuid, Node>
    var edges: set<(Uuid, Uuid)>
    var stale: map<Uuid, bool>
    var groups: map<string, set<Uuid>>

    /** The state as a value. */
    function Value(): Graph
      reads this
    {
      Graph(nodes, edges, stale, groups)
    }

    constructor ()
      ensures Value() == EmptyGraph()
    {
      nodes := map[];
      edges := {};
      stale := map[];
      groups := map[];
    }

    method Add(n: Node, isStale: bool) returns (outcome: Result<()>)
      modifies this
      ensures outcome.Err? <==> AddNode(old(Value()), n, isStale).Err?
      ensures outcome.Ok? ==> Value() == AddNode(old(Value()), n, isStale).value
      ensures outcome.Err? ==> Value() == old(Value())
    {
      if HasNodeNamed(Value(), n.name) {
        return Err("Cannot add node named " + n.name + ", as it already exists.");
      }
      if n.uuid !in nodes {
        nodes := nodes[n.uuid := n];
      }
      stale := stale[n.uuid := isStale];
      return Ok(());
    }

    method Remove(u: Uuid) returns (outcome: Result<()>)
      modifies this
      ensures outcome.Err? <==> RemoveNode(old(Value()), u).Err?
      ensures outcome.Ok? ==> Value() == RemoveNode(old(Value()), u).value
      ensures outcome.Err? ==> Value() == old(Value())
    {
      if u !in nodes {
        return Err("The node is not in the graph.");
      }
      nodes := nodes - {u};
      edges := set e | e in edges && e.0 != u && e.1 != u;
      stale := stale - {u};
      return Ok(());
    }

    /** The edge goes in first and the acyclicity test runs on the result,
        as with the source's graph library. */
    method ConnectNodes(provider: Uuid, consumer: Uuid) returns (outcome: Result<()>)
      requires Valid(Value())
      modifies this
      ensures (outcome, Value()) == Connect(old(Value()), provider, consumer)
    {
      if provider !in nodes {
        return Err("The provider does not exist in the graph.");
      }
      if consumer !in nodes {
        return Err("The consumer does not exist in the graph.");
      }
      if (consumer, provider) in edges {
        return Err("Attempting to duplicate outgoing connection.");
      }
      edges := edges + {(consumer, provider)};
      var ok, rank := Closure.CheckAcyclic(nodes.Keys, edges);
      if ok {
        outcome := Ok(());
      } else {
        outcome := Err("The directed graph is no longer acyclic!");
      }
    }

    method DisconnectNodes(provider: Uuid, consumer: Uuid) returns (outcome: Result<()>)
      modifies this
      ensures outcome.Err? <==> Disconnect(old(Value()), provider, consumer).Err?
      ensures outcome.Ok? ==> Value() == Disconnect(old(Value()), provider, consumer).value
      ensures outcome.Err? ==> Value() == old(Value())
    {
      if provider !in nodes {
        return Err("The provider does not exist in the graph.");
      }
      if consumer !in nodes {
        return Err("The consumer does not exist in the graph.");
      }
      if (consumer, provider) !in edges {
        return Err("The edge is not in the graph.");
      }
      edges := edges - {(consumer, provider)};
      return Ok(());
    }

    method SetNodeStale(u: Uuid, state: bool)
      modifies this
      ensures Value() == SetStale(old(Value()), u, state)
    {
      stale := stale[u := state];
    }

    method AddNodeGroup(name: string, members: set<Uuid>) returns (outcome: Result<()>)
      modifies this
      ensures outcome.Err? <==> AddGroup(old(Value()), name, members).Err?
      ensures outcome.Ok? ==> Value() == AddGroup(old(Value()), name, members).value
      ensures outcome.Err? ==> Value() == old(Value())
    {
      if members in groups.Values {
        return Err("NodeGroup already present in DAG group dict.");
      }
      if name in groups {
        return Err("NodeGroup named " + name + " already exists in DAG group dict.");
      }
      groups := groups[name := members];
      return Ok(());
    }

    /** `removeNodeGroup(nameToRemove, nodeListToRemove)`: by name when the
        name is non-empty, else by the set of nodes when that is non-empty
        (the first group holding exactly that set goes), else nothing. */
    method RemoveNodeGroup(name: string, members: set<Uuid>) returns (outcome: Result<()>)
      modifies this
      ensures nodes == old(nodes) && edges == old(edges) && stale == old(stale)
      ensures name != "" ==>
        (outcome.Err? <==> RemoveGroupNamed(old(Value()), name).Err?) &&
        (outcome.Ok? ==> Value() == RemoveGroupNamed(old(Value()), name).value)
      ensures name == "" && members != {} ==>
        (outcome.Err? <==> members !in old(groups).Values) &&
        (outcome.Ok? ==> exists key :: key in old(groups) && old(groups)[key] == members && groups == old(groups) - {key})
      ensures name == "" && members != {} && outcome.Ok? && DistinctGroups(old(Value())) ==>
        forall k :: k in groups <==> k in old(groups) && old(groups)[k] != members
      ensures outcome.Err? || (name == "" && members == {}) ==> groups == old(groups)
    {
      if name != "" {
        if name !in groups {
          return Err("NodeGroup not present in DAG group dict.");
        }
        groups := groups - {name};
        return Ok(());
      }
      if members != {} {
        if members !in groups.Values {
          return Err("NodeGroup not present in DAG group dict.");
        }
        var key :| key in groups && groups[key] == members;
        groups := groups - {key};
      }
      return Ok(());
    }
  }
}
