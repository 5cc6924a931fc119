/** Change propagation in the main window: what happens downstream when an
    input's source changes and when an output's type or range changes
    (`dagNodeInputChanged`, `dagNodeOutputChanged`). Nodes are updated in
    place in the graph object; every operation returns the nodes it reports
    as affected, for the views to refresh. Disconnection and stale marking
    build on this and live in the modules `Disconnection` and `Stale`. */
module Propagation {
  import opened Wrappers
  import Closure
  import Packets
  import Nodes
  import Variables
  import PyText
  import Dag

  type Uuid = Packets.Uuid
  type Graph = Dag.Graph
  type Node = Nodes.Node
  type Property = Nodes.Property

  // ---------------------------------------------------------------------------
  // The state propagation works in
  // ---------------------------------------------------------------------------

  /** A node carries an entry for every input and output its kind declares,
      as every node built by its constructor does. */
  predicate Declares(n: Node) {
    (forall d :: d in Nodes.InputDecls(n.kind) ==> Nodes.InputKey(d.name) in n.props) &&
    (forall d :: d in Nodes.OutputDecls(n.kind) ==> Nodes.OutputKey(d.name) in n.props)
  }

  /** A graph propagation can work in: well formed, every node carrying its
      declared entries, every binding backed by an edge, and ranked (so
      acyclic). The ranking bounds the cascade. */
  ghost predicate Ready(g: Graph, scope: Variables.Scope, rank: map<Uuid, nat>) {
    Dag.Valid(g) && (forall u :: u in g.nodes ==> Declares(g.nodes[u])) &&
    Dag.BindingsOnEdges(g, scope) && Closure.IsRanking(rank, g.nodes.Keys, g.edges)
  }

  /** An input with an empty value and no range. */
  predicate Cleared(p: Property) {
    p.InputProp? && p.value == "" && p.seqRange.None?
  }

  /** How one property may change under propagation: an input keeps its
      value unless it is cleared, and a cleared input stays cleared; an
      output keeps its files; an attribute does not change. Only ranges
      move freely. */
  predicate PropEvolves(a: Property, b: Property) {
    match a
    case InputProp(name, t, required, value, _) =>
      b.InputProp? && b.name == name && b.packetType == t && b.required == required &&
      (b.value == value || Cleared(b)) && (Cleared(a) ==> Cleared(b))
    case OutputProp(name, t, files, _) =>
      b.OutputProp? && b.name == name && b.packetType == t && b.files == files
    case AttributeProp(_, _, _, _) => b == a
  }

  predicate NodeEvolves(a: Node, b: Node) {
    b.kind == a.kind && b.name == a.name && b.uuid == a.uuid && b.props.Keys == a.props.Keys &&
    forall k :: k in a.props ==> PropEvolves(a.props[k], b.props[k])
  }

  /** `h` is `g` after propagation: the same nodes, edges, stale flags and
      groups, every node evolved as above. */
  predicate Evolves(g: Graph, h: Graph) {
    h.nodes.Keys == g.nodes.Keys && h.edges == g.edges && h.stale == g.stale && h.groups == g.groups &&
    forall u :: u in g.nodes ==> NodeEvolves(g.nodes[u], h.nodes[u])
  }

  /** Nodes outside `S` are as they were. */
  predicate Untouched(g: Graph, h: Graph, S: set<Uuid>) {
    forall v :: v in g.nodes && v !in S ==> v in h.nodes && h.nodes[v] == g.nodes[v]
  }

  /** Every node that changed is reported. */
  predicate Noticed(g: Graph, h: Graph, affected: seq<Uuid>) {
    forall v :: v in g.nodes && v in h.nodes && h.nodes[v] != g.nodes[v] ==> v in affected
  }

  lemma EvolvesRefl(g: Graph)
    ensures Evolves(g, g)
  {
  }

  lemma NodeEvolvesTrans(a: Node, b: Node, c: Node)
    requires NodeEvolves(a, b) && NodeEvolves(b, c)
    ensures NodeEvolves(a, c)
  {
    forall k | k in a.props
      ensures PropEvolves(a.props[k], c.props[k])
    {
      assert PropEvolves(a.props[k], b.props[k]) && PropEvolves(b.props[k], c.props[k]);
    }
  }

  lemma EvolvesTrans(g: Graph, h: Graph, k: Graph)
    requires Evolves(g, h) && Evolves(h, k)
    ensures Evolves(g, k)
  {
    forall u | u in g.nodes
      ensures NodeEvolves(g.nodes[u], k.nodes[u])
    {
      NodeEvolvesTrans(g.nodes[u], h.nodes[u], k.nodes[u]);
    }
  }

  /** An evolved node is still well formed and still declares its entries. */
  lemma NodeEvolvesWf(a: Node, b: Node)
    requires Nodes.Wf(a) && NodeEvolves(a, b)
    ensures Nodes.Wf(b)
    ensures Declares(a) ==> Declares(b)
  {
    forall key | key in b.props
      ensures Nodes.KeyedAt(key, b.props[key])
    {
      assert Nodes.KeyedAt(key, a.props[key]) && PropEvolves(a.props[key], b.props[key]);
    }
  }

  /** The empty string names no output. */
  lemma LocatedEmpty(g: Graph, scope: Variables.Scope)
    ensures Dag.Located(g, Variables.Substitute(scope, "")) == None
  {
    Variables.SubstituteNoDollar(scope, "");
  }

  /** Location strings resolve the same in graphs whose nodes carry the same keys. */
  lemma LocatedSame(g: Graph, h: Graph, s: string)
    requires Evolves(g, h)
    ensures Dag.Located(h, s) == Dag.Located(g, s)
  {
  }

  /** Under propagation a binding can only be lost, never moved or gained. */
  lemma BindingKept(g: Graph, h: Graph, scope: Variables.Scope, u: Uuid, name: string)
    requires Dag.Valid(g) && Dag.Valid(h) && Evolves(g, h) && u in g.nodes
    ensures Dag.Binding(h, scope, u, name).Some? ==> Dag.Binding(h, scope, u, name) == Dag.Binding(g, scope, u, name)
  {
    var key := Nodes.InputKey(name);
    if key in h.nodes[u].props {
      Nodes.KindAtKey(g.nodes[u], key);
      var a := g.nodes[u].props[key];
      var b := h.nodes[u].props[key];
      assert PropEvolves(a, b);
      if b.value == a.value {
        LocatedSame(g, h, Variables.Substitute(scope, a.value));
      } else {
        LocatedEmpty(h, scope);
      }
    }
  }

  /** Propagation keeps a graph ready. */
  lemma EvolvesReady(g: Graph, h: Graph, scope: Variables.Scope, rank: map<Uuid, nat>)
    requires Ready(g, scope, rank) && Evolves(g, h)
    ensures Ready(h, scope, rank)
  {
    forall u | u in h.nodes
      ensures h.nodes[u].uuid == u && Nodes.Wf(h.nodes[u]) && Declares(h.nodes[u])
    {
      NodeEvolvesWf(g.nodes[u], h.nodes[u]);
    }
    assert Dag.Valid(h);
    forall u, name | u in h.nodes && Dag.Binding(h, scope, u, name).Some?
      ensures (u, Dag.Binding(h, scope, u, name).value.0) in h.edges
    {
      BindingKept(g, h, scope, u, name);
    }
  }

  /** Replacing one node by an evolved version of it is propagation. */
  lemma StoreEvolves(g: Graph, u: Uuid, n: Node)
    requires u in g.nodes && NodeEvolves(g.nodes[u], n)
    ensures Evolves(g, g.(nodes := g.nodes[u := n]))
  {
  }

  /** A bound input has a non-empty stored value. */
  lemma BoundNotEmpty(g: Graph, scope: Variables.Scope, u: Uuid, name: string)
    requires Dag.Valid(g) && u in g.nodes && Nodes.InputKey(name) in g.nodes[u].props
    requires Dag.Binding(g, scope, u, name).Some?
    ensures g.nodes[u].props[Nodes.InputKey(name)].value != ""
  {
    if g.nodes[u].props[Nodes.InputKey(name)].value == "" {
      Nodes.KindAtKey(g.nodes[u], Nodes.InputKey(name));
      LocatedEmpty(g, scope);
    }
  }

  // ---------------------------------------------------------------------------
  // Ranks bound the cascade
  // ---------------------------------------------------------------------------

  /** How many ranked nodes sit above `u`. */
  ghost function Height(rank: map<Uuid, nat>, u: Uuid): nat {
    |Above(rank, u)|
  }

  ghost function Above(rank: map<Uuid, nat>, u: Uuid): set<Uuid> {
    if u in rank then set v | v in rank && rank[v] > rank[u] else {}
  }

  /** A node of higher rank has fewer nodes above it. */
  lemma HeightDrops(rank: map<Uuid, nat>, u: Uuid, a: Uuid)
    requires u in rank && a in rank && rank[a] > rank[u]
    ensures Height(rank, a) < Height(rank, u)
  {
    var A := Above(rank, a);
    var U := Above(rank, u);
    var B := U - {a};
    assert A <= B;
    assert a in U;
    Dag.CardMinus(U, {a});
    Dag.CardMinus(B, A);
    assert |A| <= |B| < |U|;
  }

  /** Everything after `u` ranks above it, and what is after something
      after `u` is after `u`. */
  lemma AfterRanks(g: Graph, rank: map<Uuid, nat>, u: Uuid, a: Uuid)
    requires Closure.IsRanking(rank, g.nodes.Keys, g.edges) && a in Dag.After(g, u)
    ensures u in rank && a in rank && rank[a] > rank[u]
    ensures Height(rank, a) < Height(rank, u)
  {
    Dag.BeforeAfter(g, a, u);
    Closure.RankDecreases(rank, g.nodes.Keys, g.edges, a, u);
    assert u in rank && a in rank && rank[a] > rank[u];
    HeightDrops(rank, u, a);
    assert Height(rank, a) < Height(rank, u);
  }

  lemma AfterTrans(g: Graph, u: Uuid, a: Uuid, b: Uuid)
    requires a in Dag.After(g, u) && b in Dag.After(g, a)
    ensures b in Dag.After(g, u)
  {
    Closure.ReachesTrans(Closure.Converse(g.edges), u, a, b);
  }

  /** Nothing is after itself in a ranked graph. */
  lemma NotAfterItself(g: Graph, rank: map<Uuid, nat>, u: Uuid)
    requires Closure.IsRanking(rank, g.nodes.Keys, g.edges)
    ensures u !in Dag.After(g, u)
  {
    if u in Dag.After(g, u) {
      AfterRanks(g, rank, u, u);
    }
  }

  // ---------------------------------------------------------------------------
  // Composing steps
  // ---------------------------------------------------------------------------

  /** `h` is `g` after a propagation step that changed nodes of `S` only and
      reported every node it changed in `affected`. */
  predicate Step(g: Graph, h: Graph, S: set<Uuid>, affected: seq<Uuid>) {
    Evolves(g, h) && Untouched(g, h, S) && Noticed(g, h, affected)
  }

  lemma StepRefl(g: Graph, S: set<Uuid>)
    ensures Step(g, g, S, [])
  {
  }

  /** Reporting more nodes keeps a step. */
  lemma StepMore(g: Graph, h: Graph, S: set<Uuid>, a1: seq<Uuid>, a2: seq<Uuid>)
    requires Step(g, h, S, a1)
    ensures Step(g, h, S, a1 + a2)
  {
  }

  /** Two steps, the second within the first's reach, make one step. */
  lemma StepTrans(g: Graph, h: Graph, k: Graph, S: set<Uuid>, T: set<Uuid>, a1: seq<Uuid>, a2: seq<Uuid>)
    requires Step(g, h, S, a1) && Step(h, k, T, a2) && T <= S
    ensures Step(g, k, S, a1 + a2)
  {
    EvolvesTrans(g, h, k);
    forall v | v in g.nodes && v in k.nodes && k.nodes[v] != g.nodes[v]
      ensures v in a1 + a2
    {
      if h.nodes[v] == g.nodes[v] {
        assert v in a2;
      } else {
        assert v in a1;
      }
    }
  }

  /** Replacing one node of `S` by an evolved version of it is a step. */
  lemma StoreStep(g: Graph, u: Uuid, n: Node, S: set<Uuid>)
    requires u in g.nodes && u in S && NodeEvolves(g.nodes[u], n)
    ensures Step(g, g.(nodes := g.nodes[u := n]), S, [u])
  {
  }

  /** Replacing one node by an evolved version of it is a step that keeps
      the graph ready. */
  lemma StoreReady(g: Graph, scope: Variables.Scope, rank: map<Uuid, nat>, u: Uuid, n: Node)
    requires Ready(g, scope, rank) && u in g.nodes && NodeEvolves(g.nodes[u], n)
    ensures Ready(g.(nodes := g.nodes[u := n]), scope, rank)
    ensures Step(g, g.(nodes := g.nodes[u := n]), {u}, [u])
  {
    StoreStep(g, u, n, {u});
    EvolvesReady(g, g.(nodes := g.nodes[u := n]), scope, rank);
  }

  /** A binding of a graph after propagation that is gone left its input
      cleared. */
  lemma LostBindingCleared(g: Graph, h: Graph, scope: Variables.Scope, u: Uuid, name: string)
    requires Dag.Valid(g) && Dag.Valid(h) && Evolves(g, h) && u in g.nodes
    requires Nodes.InputKey(name) in g.nodes[u].props
    requires Dag.Binding(g, scope, u, name).Some? && Dag.Binding(h, scope, u, name).None?
    ensures Cleared(h.nodes[u].props[Nodes.InputKey(name)])
  {
    var key := Nodes.InputKey(name);
    Nodes.KindAtKey(g.nodes[u], key);
    assert PropEvolves(g.nodes[u].props[key], h.nodes[u].props[key]);
    if h.nodes[u].props[key].value == g.nodes[u].props[key].value {
      LocatedSame(g, h, Variables.Substitute(scope, g.nodes[u].props[key].value));
    }
  }

  // ---------------------------------------------------------------------------
  // Changes to one node
  // ---------------------------------------------------------------------------

  /** The stored (unsubstituted) value of an input. */
  function StoredValue(n: Node, name: string): string
    requires Nodes.Wf(n) && Nodes.InputKey(name) in n.props
  {
    Nodes.KindAtKey(n, Nodes.InputKey(name));
    n.props[Nodes.InputKey(name)].value
  }

  /** `setInputValue(name, "")` followed by `setInputRange(name, None)`. */
  function ClearInput(n: Node, name: string): (m: Node)
    requires Nodes.Wf(n) && Nodes.InputKey(name) in n.props
    ensures NodeEvolves(n, m)
    ensures Cleared(m.props[Nodes.InputKey(name)])
    ensures forall k :: k in n.props && k != Nodes.InputKey(name) ==> m.props[k] == n.props[k]
  {
    Nodes.KindAtKey(n, Nodes.InputKey(name));
    var m := Nodes.SetInputValue(n, name, "").value;
    Nodes.SetInputRange(m, name, None).value
  }

  /** `setInputRange(name, r)` on an input that names a source. */
  function SetRange(n: Node, name: string, r: Nodes.Range): (m: Node)
    requires Nodes.Wf(n) && Nodes.InputKey(name) in n.props && StoredValue(n, name) != ""
    ensures NodeEvolves(n, m)
    ensures m.props[Nodes.InputKey(name)] == n.props[Nodes.InputKey(name)].(seqRange := r)
    ensures forall k :: k in n.props && k != Nodes.InputKey(name) ==> m.props[k] == n.props[k]
  {
    Nodes.KindAtKey(n, Nodes.InputKey(name));
    Nodes.SetInputRange(n, name, r).value
  }

  /** `str()` of one end of a packet's range. */
  function EndText(e: Option<int>): string {
    match e
    case None => "None"
    case Some(i) => PyText.IntToStr(i)
  }

  /** The pair of strings `dagNodeInputChanged` stores for a packet's range. */
  function RangeText(r: (Option<int>, Option<int>)): Nodes.Range {
    Some((Some(EndText(r.0)), Some(EndText(r.1))))
  }

  /** The key of the output `outputAffectedByInput(d)` returns, when it has
      sub-outputs (the range is written once per sub-output, so an output
      without any keeps its range). */
  function RangedOutput(n: Node, d: Nodes.InputDecl): (r: Option<string>)
    requires Nodes.Wf(n) && Declares(n)
    ensures r.Some? ==> r.value in n.props && n.props[r.value].OutputProp?
    ensures r.Some? ==> r.value != Nodes.InputKey(d.name)
  {
    match Nodes.OutputAffectedByInput(n.kind, d)
    case None => None
    case Some(o) =>
      var key := Nodes.OutputKey(o.name);
      assert o in Nodes.OutputDecls(n.kind);
      Nodes.KindAtKey(n, key);
      if n.props[key].files != map[] then Some(key) else None
  }

  /** The range `dagNodeInputChanged` gives an input whose source's packet
      has range `r`: the input's range becomes `r` as text, and so does the
      range of the output it pairs with; nothing else of the node changes. */
  function TakeRange(n: Node, d: Nodes.InputDecl, r: (Option<int>, Option<int>)): (m: Node)
    requires Nodes.Wf(n) && Declares(n) && d in Nodes.InputDecls(n.kind)
    requires StoredValue(n, d.name) != ""
    ensures NodeEvolves(n, m)
    ensures m.props[Nodes.InputKey(d.name)].seqRange == RangeText(r)
    ensures RangedOutput(n, d).Some? ==> m.props[RangedOutput(n, d).value].seqRange == RangeText(r)
    ensures forall k :: k in n.props && k != Nodes.InputKey(d.name) && Some(k) != RangedOutput(n, d) ==>
      m.props[k] == n.props[k]
  {
    var m := SetRange(n, d.name, RangeText(r));
    match RangedOutput(n, d)
    case None => m
    case Some(key) =>
      var o := m.props[key];
      Nodes.SetOutputRange(m, o.name, RangeText(r)).value
  }

  /** The range of the packet an input's stored value points at, read
      without substitution as `dagNodeInputChanged` reads it: nothing when
      the value names no output or the packet has no range, an error when
      building the packet raises. */
  function IncomingRange(g: Graph, scope: Variables.Scope, u: Uuid, name: string, ghost rank: map<Uuid, nat>)
    : (r: Result<Option<(Option<int>, Option<int>)>>)
    requires Ready(g, scope, rank) && u in g.nodes && Nodes.InputKey(name) in g.nodes[u].props
    ensures r.Ok? && r.value.Some? ==> StoredValue(g.nodes[u], name) != ""
  {
    var value := StoredValue(g.nodes[u], name);
    match Dag.Located(g, value)
    case None => Ok(None)
    case Some((p, _)) =>
      var packet :- Dag.OutputDataPacket(g, scope, p, rank);
      Ok(packet.sequenceRange)
  }

  // ---------------------------------------------------------------------------
  // What lies upstream of a node
  // ---------------------------------------------------------------------------

  /** A node's direct source is before it, and so is everything before that
      source. */
  lemma BeforeStep(g: Graph, p: Uuid, q: Uuid)
    requires (p, q) in g.edges
    ensures q in Dag.Before(g, p) && Dag.Before(g, q) <= Dag.Before(g, p)
  {
    Closure.ReachesStep(g.edges, p, q);
    assert q in Closure.Targets(g.edges);
    forall v | v in Dag.Before(g, q)
      ensures v in Dag.Before(g, p)
    {
      Closure.ReachesTrans(g.edges, p, q, v);
    }
  }

  /** What feeds an input of `a` lies outside `a` and everything after it. */
  lemma UpstreamApart(g: Graph, rank: map<Uuid, nat>, a: Uuid, p: Uuid)
    requires Closure.IsRanking(rank, g.nodes.Keys, g.edges) && (a, p) in g.edges
    ensures forall v :: (v == p || v in Dag.Before(g, p)) ==> v !in {a} + Dag.After(g, a)
  {
    BeforeStep(g, a, p);
    forall v | v == p || v in Dag.Before(g, p)
      ensures v !in {a} + Dag.After(g, a)
    {
      assert v in Dag.Before(g, a);
      Dag.BeforeAfter(g, a, v);
      AfterRanks(g, rank, v, a);
      if v in Dag.After(g, a) {
        AfterRanks(g, rank, a, v);
      }
    }
  }

  /** A node left as it was keeps its bindings. */
  lemma NodeKeptBinding(g: Graph, h: Graph, scope: Variables.Scope, p: Uuid, name: string)
    requires Dag.Valid(g) && Dag.Valid(h) && Evolves(g, h) && p in g.nodes && h.nodes[p] == g.nodes[p]
    ensures Dag.Binding(h, scope, p, name) == Dag.Binding(g, scope, p, name)
  {
    var key := Nodes.InputKey(name);
    if key in g.nodes[p].props {
      Nodes.KindAtKey(g.nodes[p], key);
      LocatedSame(g, h, Variables.Substitute(scope, g.nodes[p].props[key].value));
    }
  }

  /** The type an output reports depends only on its node and the nodes
      before it. */
  lemma {:induction false} OutputTypeStable(g: Graph, h: Graph, scope: Variables.Scope, p: Uuid, o: string,
                                            rank: map<Uuid, nat>, S: set<Uuid>)
    requires Dag.Valid(g) && Dag.BindingsOnEdges(g, scope) && Closure.IsRanking(rank, g.nodes.Keys, g.edges)
    requires Dag.Valid(h) && Dag.BindingsOnEdges(h, scope) && Evolves(g, h)
    requires p in g.nodes && Nodes.OutputKey(o) in g.nodes[p].props
    requires Untouched(g, h, S) && forall v :: (v == p || v in Dag.Before(g, p)) ==> v !in S
    ensures Dag.OutputType(h, scope, p, o, rank) == Dag.OutputType(g, scope, p, o, rank)
    decreases rank[p]
  {
    var declared := Dag.DeclaredType(g, p, o);
    assert Dag.DeclaredType(h, p, o) == declared;
    if Packets.SubtypesOf(declared) != {} {
      match Nodes.InputAffectingOutput(g.nodes[p].kind, Nodes.OutputDecl(o, declared))
      case None =>
      case Some(input) =>
        NodeKeptBinding(g, h, scope, p, input.name);
        match Dag.Binding(g, scope, p, input.name)
        case None =>
        case Some((q, qOut)) =>
          BeforeStep(g, p, q);
          Closure.RankDecreases(rank, g.nodes.Keys, g.edges, p, q);
          OutputTypeStable(g, h, scope, q, qOut, rank, S);
          assert Dag.OutputType(h, scope, p, o, rank) == Dag.OutputType(h, scope, q, qOut, rank);
    }
  }

  // ---------------------------------------------------------------------------
  // Ranges of inputs only
  // ---------------------------------------------------------------------------

  /** The range an input stores. */
  function StoredRange(n: Node, name: string): Nodes.Range
    requires Nodes.InputKey(name) in n.props
  {
    n.props[Nodes.InputKey(name)].seqRange
  }

  /** The range an output stores. */
  function OutputRange(n: Node, outName: string): Nodes.Range
    requires Nodes.OutputKey(outName) in n.props
  {
    n.props[Nodes.OutputKey(outName)].seqRange
  }

  /** An input agrees with its source: it is bound, and holds the range
      `getSeqRange` reports for the output it is bound to. */
  ghost predicate InputInSync(g: Graph, scope: Variables.Scope, a: Uuid, name: string)
    requires Dag.Valid(g) && a in g.nodes && Nodes.InputKey(name) in g.nodes[a].props
  {
    var b := Dag.Binding(g, scope, a, name);
    b.Some? && StoredRange(g.nodes[a], name) == Nodes.GetSeqRange(OutputRange(g.nodes[b.value.0], b.value.1))
  }

  /** Every declared input of `a` agrees with its source. */
  ghost predicate InSync(g: Graph, scope: Variables.Scope, a: Uuid) {
    Dag.Valid(g) && a in g.nodes && Declares(g.nodes[a]) &&
    forall d :: d in Nodes.InputDecls(g.nodes[a].kind) ==> InputInSync(g, scope, a, d.name)
  }

  /** At most the range of a bound input moved. */
  predicate PropRangeOnly(p: Property, q: Property) {
    q == p ||
    (p.InputProp? && p.value != "" && q == Nodes.InputProp(p.name, p.packetType, p.required, p.value, q.seqRange))
  }

  predicate NodeRangesOnly(a: Node, b: Node) {
    b.kind == a.kind && b.name == a.name && b.uuid == a.uuid && b.props.Keys == a.props.Keys &&
    forall k :: k in a.props ==> PropRangeOnly(a.props[k], b.props[k])
  }

  /** `h` is `g` with the ranges of some bound inputs changed. */
  predicate RangesOnly(g: Graph, h: Graph) {
    h.nodes.Keys == g.nodes.Keys && h.edges == g.edges && h.stale == g.stale && h.groups == g.groups &&
    forall u :: u in g.nodes ==> NodeRangesOnly(g.nodes[u], h.nodes[u])
  }

  lemma RangesOnlyEvolves(g: Graph, h: Graph)
    requires RangesOnly(g, h)
    ensures Evolves(g, h)
  {
    forall u, k | u in g.nodes && k in g.nodes[u].props
      ensures PropEvolves(g.nodes[u].props[k], h.nodes[u].props[k])
    {
      assert PropRangeOnly(g.nodes[u].props[k], h.nodes[u].props[k]);
    }
  }

  lemma RangesOnlyTrans(g: Graph, h: Graph, k: Graph)
    requires RangesOnly(g, h) && RangesOnly(h, k)
    ensures RangesOnly(g, k)
  {
    forall u, key | u in g.nodes && key in g.nodes[u].props
      ensures PropRangeOnly(g.nodes[u].props[key], k.nodes[u].props[key])
    {
      assert PropRangeOnly(g.nodes[u].props[key], h.nodes[u].props[key]);
      assert PropRangeOnly(h.nodes[u].props[key], k.nodes[u].props[key]);
    }
  }

  /** Moving ranges keeps a graph well formed. */
  lemma RangesOnlyValid(g: Graph, h: Graph)
    requires Dag.Valid(g) && RangesOnly(g, h)
    ensures Dag.Valid(h)
  {
    forall u | u in h.nodes
      ensures h.nodes[u].uuid == u && Nodes.Wf(h.nodes[u])
    {
      NodeRangesOnlyEvolves(g.nodes[u], h.nodes[u]);
      NodeEvolvesWf(g.nodes[u], h.nodes[u]);
    }
  }

  /** Moving ranges keeps a graph ready. */
  lemma RangesOnlyReady(g: Graph, h: Graph, scope: Variables.Scope, rank: map<Uuid, nat>)
    requires Ready(g, scope, rank) && RangesOnly(g, h)
    ensures Ready(h, scope, rank)
  {
    RangesOnlyEvolves(g, h);
    EvolvesReady(g, h, scope, rank);
  }

  /** Moving ranges moves no binding. */
  lemma BindingSame(g: Graph, h: Graph, scope: Variables.Scope, u: Uuid, name: string)
    requires Dag.Valid(g) && Dag.Valid(h) && RangesOnly(g, h) && u in g.nodes
    ensures Dag.Binding(h, scope, u, name) == Dag.Binding(g, scope, u, name)
  {
    RangesOnlyEvolves(g, h);
    var key := Nodes.InputKey(name);
    if key in g.nodes[u].props {
      Nodes.KindAtKey(g.nodes[u], key);
      assert PropRangeOnly(g.nodes[u].props[key], h.nodes[u].props[key]);
      LocatedSame(g, h, Variables.Substitute(scope, g.nodes[u].props[key].value));
    }
  }

  lemma ProvidersSame(g: Graph, h: Graph, scope: Variables.Scope, u: Uuid, names: seq<string>)
    requires Dag.Valid(g) && Dag.Valid(h) && RangesOnly(g, h) && u in g.nodes
    ensures Dag.Providers(h, scope, u, names, false, Dag.NothingPresent()) ==
            Dag.Providers(g, scope, u, names, false, Dag.NothingPresent())
    decreases |names|
  {
    if names != [] {
      BindingSame(g, h, scope, u, names[0]);
      ProvidersSame(g, h, scope, u, names[1..]);
    }
  }

  /** Moving ranges leaves the direct dependents of every node as they were. */
  lemma DependingOnSame(g: Graph, h: Graph, scope: Variables.Scope, u: Uuid)
    requires Dag.Valid(g) && Dag.Valid(h) && RangesOnly(g, h)
    ensures Dag.DependingOn(h, scope, u, false) == Dag.DependingOn(g, scope, u, false)
  {
    Dag.AfterInGraph(g, u);
    assert Dag.After(h, u) == Dag.After(g, u);
    forall a | a in Dag.After(g, u)
      ensures Dag.Dependencies(h, scope, a, false, Dag.NothingPresent(), false) ==
              Dag.Dependencies(g, scope, a, false, Dag.NothingPresent(), false)
    {
      ProvidersSame(g, h, scope, a, Dag.InputNames(g.nodes[a].kind));
    }
  }

  /** A node that kept its entries stays in step when only ranges moved. */
  lemma InSyncKept(g: Graph, h: Graph, scope: Variables.Scope, a: Uuid)
    requires Dag.Valid(g) && Dag.Valid(h) && RangesOnly(g, h) && InSync(g, scope, a) && h.nodes[a] == g.nodes[a]
    ensures InSync(h, scope, a)
  {
    forall d | d in Nodes.InputDecls(h.nodes[a].kind)
      ensures InputInSync(h, scope, a, d.name)
    {
      BindingSame(g, h, scope, a, d.name);
      var b := Dag.Binding(g, scope, a, d.name).value;
      var key := Nodes.OutputKey(b.1);
      Nodes.KindAtKey(g.nodes[b.0], key);
      assert PropRangeOnly(g.nodes[b.0].props[key], h.nodes[b.0].props[key]);
    }
  }

  /** Whatever is after a node after `u` is after `u`. */
  lemma WithinAfter(g: Graph, u: Uuid, a: Uuid)
    requires a in Dag.After(g, u)
    ensures {a} + Dag.After(g, a) <= Dag.After(g, u)
  {
    forall b | b in Dag.After(g, a)
      ensures b in Dag.After(g, u)
    {
      AfterTrans(g, u, a, b);
    }
  }

  // ---------------------------------------------------------------------------
  // The cascade
  // ---------------------------------------------------------------------------

  /** A cleared input stays cleared. */
  lemma ClearedKept(g: Graph, h: Graph, a: Uuid, key: string)
    requires Evolves(g, h) && a in g.nodes && key in g.nodes[a].props && Cleared(g.nodes[a].props[key])
    ensures key in h.nodes[a].props && Cleared(h.nodes[a].props[key])
  {
    assert PropEvolves(g.nodes[a].props[key], h.nodes[a].props[key]);
  }

  /** Whether the type the source of input `d` of `a` reports is one `d`
      does not accept; nothing when the input is unbound. */
  ghost function Rejected(g: Graph, scope: Variables.Scope, a: Uuid, d: Nodes.InputDecl, rank: map<Uuid, nat>): Option<bool>
    requires Ready(g, scope, rank) && a in g.nodes
  {
    match Dag.Binding(g, scope, a, d.name)
    case None => None
    case Some((p, o)) => Some(Dag.OutputType(g, scope, p, o, rank) !in Nodes.PossibleTypes(d.packetType))
  }

  /** While the cascade below `a` runs, a binding of `a` that is still there
      reports the type it reported at the start: what feeds it lies outside
      the cascade. */
  lemma SeenAsBefore(g: Graph, h: Graph, scope: Variables.Scope, a: Uuid, d: Nodes.InputDecl, rank: map<Uuid, nat>)
    requires Ready(g, scope, rank) && Ready(h, scope, rank) && Evolves(g, h) && a in g.nodes
    requires Untouched(g, h, {a} + Dag.After(g, a))
    requires Dag.Binding(h, scope, a, d.name).Some?
    ensures Dag.Binding(h, scope, a, d.name) == Dag.Binding(g, scope, a, d.name)
    ensures Rejected(h, scope, a, d, rank) == Rejected(g, scope, a, d, rank)
  {
    BindingKept(g, h, scope, a, d.name);
    var (p, o) := Dag.Binding(g, scope, a, d.name).value;
    UpstreamApart(g, rank, a, p);
    OutputTypeStable(g, h, scope, p, o, rank, {a} + Dag.After(g, a));
    assert Rejected(h, scope, a, d, rank) == Some(Dag.OutputType(h, scope, p, o, rank) !in Nodes.PossibleTypes(d.packetType));
  }

  /** The first half of `dagNodeInputChanged(u, d)`: when the input's
      stored value names an output whose packet carries a range, the input,
      and the output it pairs with when that output has sub-outputs, take
      that range as text (`TakeRange`); building the packet may raise.
      Nothing else changes. */
  method TakeIncomingRange(dag: Dag.Dag, scope: Variables.Scope, u: Uuid, d: Nodes.InputDecl, ghost rank: map<Uuid, nat>)
    returns (outcome: Result<()>, affected: seq<Uuid>)
    requires Ready(dag.Value(), scope, rank) && u in dag.nodes && d in Nodes.InputDecls(dag.nodes[u].kind)
    modifies dag
    ensures Ready(dag.Value(), scope, rank)
    ensures Step(old(dag.Value()), dag.Value(), {u}, affected) && forall v :: v in affected ==> v == u
    ensures var r := IncomingRange(old(dag.Value()), scope, u, d.name, rank);
      (r.Err? ==> outcome == Err(r.reason) && dag.Value() == old(dag.Value())) &&
      (r.Ok? ==> outcome.Ok?) &&
      (r.Ok? && r.value.None? ==> dag.Value() == old(dag.Value())) &&
      (r.Ok? && r.value.Some? ==>
        dag.Value() == old(dag.Value()).(nodes := old(dag.nodes)[u := TakeRange(old(dag.nodes[u]), d, r.value.value)]))
  {
    var incoming := IncomingRange(dag.Value(), scope, u, d.name, rank);
    if incoming.Err? {
      StepRefl(dag.Value(), {u});
      return Err(incoming.reason), [];
    }
    outcome := Ok(());
    affected := StoreRange(dag, scope, u, d, incoming.value, rank);
  }

  /** The store `TakeIncomingRange` makes once the packet is read: nothing
      when the packet has no range, `TakeRange` on `u` otherwise. */
  method StoreRange(dag: Dag.Dag, scope: Variables.Scope, u: Uuid, d: Nodes.InputDecl,
                    r: Option<(Option<int>, Option<int>)>, ghost rank: map<Uuid, nat>)
    returns (affected: seq<Uuid>)
    requires Ready(dag.Value(), scope, rank) && u in dag.nodes && d in Nodes.InputDecls(dag.nodes[u].kind)
    requires r.Some? ==> StoredValue(dag.nodes[u], d.name) != ""
    modifies dag
    ensures Ready(dag.Value(), scope, rank)
    ensures Step(old(dag.Value()), dag.Value(), {u}, affected) && forall v :: v in affected ==> v == u
    ensures r.None? ==> dag.Value() == old(dag.Value())
    ensures r.Some? ==>
      dag.Value() == old(dag.Value()).(nodes := old(dag.nodes)[u := TakeRange(old(dag.nodes[u]), d, r.value)])
  {
    ghost var g0 := dag.Value();
    if r.None? {
      StepRefl(g0, {u});
      return [];
    }
    var n := TakeRange(dag.nodes[u], d, r.value);
    dag.nodes := dag.nodes[u := n];
    StoreReady(g0, scope, rank, u, n);
    return [u];
  }

  /** `dagNodeInputChanged(u, d)`: the input takes its incoming range
      (`TakeIncomingRange`), then, when the input pairs with an output, the
      change cascades through `OutputChanged`. Only `u` and the nodes after
      it change, and every change is reported. */
  method InputChanged(dag: Dag.Dag, scope: Variables.Scope, u: Uuid, d: Nodes.InputDecl, ghost rank: map<Uuid, nat>)
    returns (outcome: Result<()>, affected: seq<Uuid>)
    requires Ready(dag.Value(), scope, rank) && u in dag.nodes && d in Nodes.InputDecls(dag.nodes[u].kind)
    modifies dag
    ensures Ready(dag.Value(), scope, rank)
    ensures Step(old(dag.Value()), dag.Value(), {u} + Dag.After(old(dag.Value()), u), affected)
    ensures forall v :: v in affected ==> v == u || v in Dag.After(old(dag.Value()), u)
    decreases Height(rank, u), 3
  {
    ghost var g0 := dag.Value();
    outcome, affected := TakeIncomingRange(dag, scope, u, d, rank);
    if outcome.Err? || Nodes.OutputAffectedByInput(dag.nodes[u].kind, d).None? {
      return;
    }
    ghost var g1 := dag.Value();
    var more;
    outcome, more := OutputChanged(dag, scope, u, rank);
    StepTrans(g0, g1, dag.Value(), {u} + Dag.After(g0, u), Dag.After(g1, u), affected, more);
    affected := affected + more;
  }

  /** `dagNodeOutputChanged(u, _)` (which output changed does not matter).
      The first pass visits every direct dependent of `u` and rechecks its
      inputs (`CheckInputs`); the second brings the range of every input of
      every direct dependent back in step with its source
      (`ResyncInputs`). Then `u` and the direct dependents are reported.
      Only nodes after `u` change, and when nothing raised, every direct
      dependent is left in step with its sources. */
  method OutputChanged(dag: Dag.Dag, scope: Variables.Scope, u: Uuid, ghost rank: map<Uuid, nat>)
    returns (outcome: Result<()>, affected: seq<Uuid>)
    requires Ready(dag.Value(), scope, rank) && u in dag.nodes
    modifies dag
    ensures Ready(dag.Value(), scope, rank)
    ensures Step(old(dag.Value()), dag.Value(), Dag.After(old(dag.Value()), u), affected)
    ensures forall v :: v in affected ==> v == u || v in Dag.After(old(dag.Value()), u)
    ensures outcome.Ok? ==> u in affected
    ensures outcome.Ok? ==> forall a :: a in Dag.DependingOn(dag.Value(), scope, u, false) ==> InSync(dag.Value(), scope, a)
    ensures Dag.DependentsFail(old(dag.Value()), scope, u, rank) ==>
      outcome.Err? && affected == [] && dag.Value() == old(dag.Value())
    decreases Height(rank, u), 2
  {
    ghost var g0 := dag.Value();
    var dependents := Dag.AllNodesDependingOn(dag.Value(), scope, u, false, rank);
    if dependents.Err? {
      StepRefl(g0, Dag.After(g0, u));
      return Err(dependents.reason), [];
    }
    Dag.AfterInGraph(g0, u);
    outcome, affected := RecheckDependents(dag, scope, u, dependents.value, rank);
    if outcome.Err? {
      return;
    }
    outcome, affected := ResyncDependents(dag, scope, u, g0, rank, affected);
  }

  /** The second loop of `dagNodeOutputChanged`, after the first left the
      changes `affected` below `u`: the direct dependents of `u` are
      brought in step with their sources, and `u` and those dependents are
      reported. */
  method ResyncDependents(dag: Dag.Dag, scope: Variables.Scope, u: Uuid, ghost g0: Graph, ghost rank: map<Uuid, nat>,
                          affected: seq<Uuid>)
    returns (outcome: Result<()>, affected': seq<Uuid>)
    requires Ready(dag.Value(), scope, rank) && u in dag.nodes
    requires Step(g0, dag.Value(), Dag.After(g0, u), affected)
    requires forall v :: v in affected ==> v in Dag.After(g0, u)
    modifies dag
    ensures Ready(dag.Value(), scope, rank)
    ensures Step(g0, dag.Value(), Dag.After(g0, u), affected')
    ensures forall v :: v in affected' ==> v == u || v in Dag.After(g0, u)
    ensures outcome.Ok? ==> u in affected'
    ensures outcome.Ok? ==> forall a :: a in Dag.DependingOn(dag.Value(), scope, u, false) ==> InSync(dag.Value(), scope, a)
    ensures Dag.DependentsFail(old(dag.Value()), scope, u, rank) ==>
      outcome.Err? && affected' == affected && dag.Value() == old(dag.Value())
  {
    ghost var g1 := dag.Value();
    var query := Dag.AllNodesDependingOn(dag.Value(), scope, u, false, rank);
    if query.Err? {
      return Err(query.reason), affected;
    }
    var direct := query.value;
    Dag.AfterInGraph(g1, u);
    var changed, visited;
    outcome, changed, visited := ResyncAll(dag, scope, u, direct, rank);
    affected' := if outcome.Ok? then affected + changed + ([u] + visited) else affected + changed;
    ResyncJoin(g0, g1, dag.Value(), scope, u, direct, affected, changed, visited, outcome.Ok?, affected');
  }

  /** The changes of `ResyncAll` on the direct dependents `direct` of `u`
      join those made before it. */
  lemma ResyncJoin(g0: Graph, g1: Graph, h: Graph, scope: Variables.Scope, u: Uuid, direct: set<Uuid>,
                   affected: seq<Uuid>, changed: seq<Uuid>, visited: seq<Uuid>, ok: bool, all: seq<Uuid>)
    requires Dag.Valid(g1) && Dag.Valid(h) && RangesOnly(g1, h) && u in g1.nodes
    requires Step(g0, g1, Dag.After(g0, u), affected) && (forall v :: v in affected ==> v in Dag.After(g0, u))
    requires direct == Dag.DependingOn(g1, scope, u, false)
    requires Step(g1, h, direct, changed) && (forall v :: v in changed ==> v in direct)
    requires ok ==> forall a :: a in direct ==> InSync(h, scope, a)
    requires all == if ok then affected + changed + ([u] + visited) else affected + changed
    requires ok ==> forall a :: a in visited <==> a in direct
    ensures Step(g0, h, Dag.After(g0, u), all)
    ensures forall v :: v in all ==> v == u || v in Dag.After(g0, u)
    ensures ok ==> u in all
    ensures ok ==> forall a :: a in Dag.DependingOn(h, scope, u, false) ==> InSync(h, scope, a)
  {
    assert Dag.After(g1, u) == Dag.After(g0, u);
    assert direct <= Dag.After(g0, u);
    StepTrans(g0, g1, h, Dag.After(g0, u), direct, affected, changed);
    assert forall v :: v in affected + changed ==> v in Dag.After(g0, u);
    if ok {
      DependingOnSame(g1, h, scope, u);
      StepMore(g0, h, Dag.After(g0, u), affected + changed, [u] + visited);
    }
  }

  /** The first loop of `dagNodeOutputChanged`, over the direct dependents
      `todo` of `u`. */
  method RecheckDependents(dag: Dag.Dag, scope: Variables.Scope, u: Uuid, todo: set<Uuid>, ghost rank: map<Uuid, nat>)
    returns (outcome: Result<()>, affected: seq<Uuid>)
    requires Ready(dag.Value(), scope, rank) && u in dag.nodes && todo <= Dag.After(dag.Value(), u)
    modifies dag
    ensures Ready(dag.Value(), scope, rank)
    ensures Step(old(dag.Value()), dag.Value(), Dag.After(old(dag.Value()), u), affected)
    ensures forall v :: v in affected ==> v in Dag.After(old(dag.Value()), u)
    decreases Height(rank, u), 1
  {
    ghost var g0 := dag.Value();
    Dag.AfterInGraph(g0, u);
    var rest := todo;
    affected := [];
    StepRefl(g0, Dag.After(g0, u));
    outcome := Ok(());
    while rest != {} && outcome.Ok?
      invariant rest <= todo
      invariant RecheckLoop(g0, dag.Value(), scope, u, rank, affected)
      decreases rest
    {
      var a :| a in rest;
      rest := rest - {a};
      outcome, affected := RecheckOne(dag, scope, u, a, g0, rank, affected);
    }
  }

  /** One turn of the loop of `RecheckDependents`: the inputs of the
      dependent `a` are checked, and what changed is added to `affected`. */
  method RecheckOne(dag: Dag.Dag, scope: Variables.Scope, u: Uuid, a: Uuid, ghost g0: Graph, ghost rank: map<Uuid, nat>,
                    affected: seq<Uuid>)
    returns (outcome: Result<()>, affected': seq<Uuid>)
    requires Closure.IsRanking(rank, g0.nodes.Keys, g0.edges) && a in Dag.After(g0, u)
    requires RecheckLoop(g0, dag.Value(), scope, u, rank, affected)
    modifies dag
    ensures RecheckLoop(g0, dag.Value(), scope, u, rank, affected')
    decreases Height(rank, u), 0
  {
    AfterRanks(g0, rank, u, a);
    ghost var g1 := dag.Value();
    var more;
    outcome, more := CheckInputs(dag, scope, a, rank);
    RecheckTurn(g0, g1, dag.Value(), scope, u, a, rank, affected, more);
    affected' := affected + more;
  }

  /** The state of the loop of `RecheckDependents`: the graph is ready, and
      the changes so far lie after `u` and are reported. */
  ghost predicate RecheckLoop(g0: Graph, h: Graph, scope: Variables.Scope, u: Uuid, rank: map<Uuid, nat>,
                              affected: seq<Uuid>)
  {
    Ready(h, scope, rank) && Step(g0, h, Dag.After(g0, u), affected) &&
    forall v :: v in affected ==> v in Dag.After(g0, u)
  }

  /** One turn of the loop of `RecheckDependents`, on the dependent `a`:
      the cascade below `a` stays below `u`. */
  lemma RecheckTurn(g0: Graph, g1: Graph, h: Graph, scope: Variables.Scope, u: Uuid, a: Uuid, rank: map<Uuid, nat>,
                     affected: seq<Uuid>, more: seq<Uuid>)
    requires a in Dag.After(g0, u) && RecheckLoop(g0, g1, scope, u, rank, affected)
    requires Ready(h, scope, rank) && Step(g1, h, {a} + Dag.After(g1, a), more)
    requires (forall v :: v in more ==> v == a || v in Dag.After(g1, a))
    ensures RecheckLoop(g0, h, scope, u, rank, affected + more)
  {
    assert Dag.After(g1, a) == Dag.After(g0, a);
    WithinAfter(g0, u, a);
    StepTrans(g0, g1, h, Dag.After(g0, u), {a} + Dag.After(g1, a), affected, more);
  }

  /** The first loop of `dagNodeOutputChanged` for one dependent `a`: for
      each input, the type its source output reports is read, the input's
      change is propagated (`InputChanged`), and the input is cleared when
      that type is not one it accepts. An unbound input raises. When
      nothing raised, every input was bound, and every input whose source
      reported a type it does not accept is cleared. */
  method CheckInputs(dag: Dag.Dag, scope: Variables.Scope, a: Uuid, ghost rank: map<Uuid, nat>)
    returns (outcome: Result<()>, affected: seq<Uuid>)
    requires Ready(dag.Value(), scope, rank) && a in dag.nodes
    modifies dag
    ensures Ready(dag.Value(), scope, rank)
    ensures Step(old(dag.Value()), dag.Value(), {a} + Dag.After(old(dag.Value()), a), affected)
    ensures forall v :: v in affected ==> v == a || v in Dag.After(old(dag.Value()), a)
    ensures outcome.Ok? ==> forall d :: d in Nodes.InputDecls(old(dag.nodes[a].kind)) ==>
      Handled(old(dag.Value()), dag.Value(), scope, a, d, rank)
    decreases Height(rank, a), 7
  {
    ghost var g0 := dag.Value();
    var ds := Nodes.InputDecls(dag.nodes[a].kind);
    affected := [];
    StepRefl(g0, {a} + Dag.After(g0, a));
    var i := 0;
    outcome := Ok(());
    while i < |ds| && outcome.Ok?
      invariant CheckLoop(g0, dag.Value(), scope, a, ds, i, rank, affected)
      decreases |ds| - i, if outcome.Ok? then 1 else 0
    {
      outcome, affected := CheckOne(dag, scope, a, ds, i, g0, rank, affected);
      if outcome.Ok? {
        i := i + 1;
      }
    }
    CheckExit(g0, dag.Value(), scope, a, ds, i, rank, affected);
  }

  /** One turn of the loop of `CheckInputs`, on input `ds[i]`. */
  method CheckOne(dag: Dag.Dag, scope: Variables.Scope, a: Uuid, ds: seq<Nodes.InputDecl>, i: int, ghost g0: Graph,
                  ghost rank: map<Uuid, nat>, affected: seq<Uuid>)
    returns (outcome: Result<()>, affected': seq<Uuid>)
    requires CheckLoop(g0, dag.Value(), scope, a, ds, i, rank, affected) && i < |ds|
    modifies dag
    ensures CheckLoop(g0, dag.Value(), scope, a, ds, if outcome.Ok? then i + 1 else i, rank, affected')
    decreases Height(rank, a), 6
  {
    ghost var g1 := dag.Value();
    EvolvesReady(g0, g1, scope, rank);
    var more;
    outcome, more := CheckInput(dag, scope, a, ds[i], g0, rank);
    CheckTurn(g0, g1, dag.Value(), scope, a, ds, i, rank, affected, more, outcome.Ok?);
    affected' := affected + more;
  }

  /** The state of the loop of `CheckInputs` after `i` inputs. */
  ghost predicate CheckLoop(g0: Graph, h: Graph, scope: Variables.Scope, a: Uuid, ds: seq<Nodes.InputDecl>, i: int,
                            rank: map<Uuid, nat>, affected: seq<Uuid>)
  {
    Ready(g0, scope, rank) && a in g0.nodes && ds == Nodes.InputDecls(g0.nodes[a].kind) && 0 <= i <= |ds| &&
    Step(g0, h, {a} + Dag.After(g0, a), affected) &&
    (forall v :: v in affected ==> v == a || v in Dag.After(g0, a)) &&
    forall j :: 0 <= j < i ==> Handled(g0, h, scope, a, ds[j], rank)
  }

  /** Leaving the loop of `CheckInputs`, after all inputs or at one that
      raised. */
  lemma CheckExit(g0: Graph, h: Graph, scope: Variables.Scope, a: Uuid, ds: seq<Nodes.InputDecl>, i: int,
                  rank: map<Uuid, nat>, affected: seq<Uuid>)
    requires CheckLoop(g0, h, scope, a, ds, i, rank, affected)
    ensures Ready(h, scope, rank) && Step(g0, h, {a} + Dag.After(g0, a), affected)
    ensures forall v :: v in affected ==> v == a || v in Dag.After(g0, a)
    ensures i == |ds| ==> forall d :: d in Nodes.InputDecls(g0.nodes[a].kind) ==> Handled(g0, h, scope, a, d, rank)
  {
    EvolvesReady(g0, h, scope, rank);
    if i == |ds| {
      HandledAll(g0, h, scope, a, ds, rank);
    }
  }

  /** Input `d` of `a` was bound in `g`, and is cleared in `h` when its
      source reported a type it does not accept. */
  ghost predicate Handled(g: Graph, h: Graph, scope: Variables.Scope, a: Uuid, d: Nodes.InputDecl, rank: map<Uuid, nat>)
    requires Ready(g, scope, rank) && a in g.nodes && a in h.nodes
  {
    Rejected(g, scope, a, d, rank).Some? &&
    (Rejected(g, scope, a, d, rank).value ==>
       Nodes.InputKey(d.name) in h.nodes[a].props && Cleared(h.nodes[a].props[Nodes.InputKey(d.name)]))
  }

  /** One turn of the loop of `CheckInputs`, on input `ds[i]`. */
  lemma CheckTurn(g0: Graph, g1: Graph, h: Graph, scope: Variables.Scope, a: Uuid, ds: seq<Nodes.InputDecl>, i: int,
                  rank: map<Uuid, nat>, affected: seq<Uuid>, more: seq<Uuid>, ok: bool)
    requires CheckLoop(g0, g1, scope, a, ds, i, rank, affected) && i < |ds|
    requires Step(g1, h, {a} + Dag.After(g1, a), more)
    requires (forall v :: v in more ==> v == a || v in Dag.After(g1, a))
    requires ok ==> Handled(g0, h, scope, a, ds[i], rank)
    ensures CheckLoop(g0, h, scope, a, ds, if ok then i + 1 else i, rank, affected + more)
  {
    assert Dag.After(g1, a) == Dag.After(g0, a);
    StepTrans(g0, g1, h, {a} + Dag.After(g0, a), {a} + Dag.After(g1, a), affected, more);
    HandledStep(g0, g1, h, scope, a, ds, i, rank, ok);
    forall v | v in affected + more
      ensures v == a || v in Dag.After(g0, a)
    {
    }
  }

  lemma HandledStep(g0: Graph, g1: Graph, h: Graph, scope: Variables.Scope, a: Uuid, ds: seq<Nodes.InputDecl>, i: int,
                    rank: map<Uuid, nat>, ok: bool)
    requires Ready(g0, scope, rank) && a in g0.nodes && a in g1.nodes && Evolves(g1, h) && 0 <= i < |ds|
    requires forall j :: 0 <= j < i ==> Handled(g0, g1, scope, a, ds[j], rank)
    requires ok ==> Handled(g0, h, scope, a, ds[i], rank)
    ensures forall j :: 0 <= j < (if ok then i + 1 else i) ==> Handled(g0, h, scope, a, ds[j], rank)
  {
    forall j | 0 <= j < (if ok then i + 1 else i)
      ensures Handled(g0, h, scope, a, ds[j], rank)
    {
      if j < i {
        HandledKept(g0, g1, h, scope, a, ds[j], rank);
      } else {
        assert j == i;
      }
    }
  }

  /** An input handled stays handled while the cascade runs. */
  lemma HandledKept(g0: Graph, g1: Graph, h: Graph, scope: Variables.Scope, a: Uuid, d: Nodes.InputDecl,
                    rank: map<Uuid, nat>)
    requires Ready(g0, scope, rank) && a in g0.nodes && a in g1.nodes && Evolves(g1, h)
    requires Handled(g0, g1, scope, a, d, rank)
    ensures a in h.nodes && Handled(g0, h, scope, a, d, rank)
  {
    if Rejected(g0, scope, a, d, rank).value {
      ClearedKept(g1, h, a, Nodes.InputKey(d.name));
    }
  }

  /** Every declared input of `a` handled when they are so one by one. */
  lemma HandledAll(g0: Graph, h: Graph, scope: Variables.Scope, a: Uuid, ds: seq<Nodes.InputDecl>, rank: map<Uuid, nat>)
    requires Ready(g0, scope, rank) && a in g0.nodes && a in h.nodes && ds == Nodes.InputDecls(g0.nodes[a].kind)
    requires forall j :: 0 <= j < |ds| ==> Handled(g0, h, scope, a, ds[j], rank)
    ensures forall d :: d in ds ==> Handled(g0, h, scope, a, d, rank)
  {
    forall d | d in ds
      ensures Handled(g0, h, scope, a, d, rank)
    {
      var j :| 0 <= j < |ds| && ds[j] == d;
    }
  }

  /** One input `d` of a dependent `a` in the first loop of
      `dagNodeOutputChanged`: the type its source reports is read, the
      input's change is propagated, and the input is cleared when it does
      not accept that type. `g0` is the graph when the loop over `a`'s
      inputs began; only `a` and nodes after it have changed since. */
  method CheckInput(dag: Dag.Dag, scope: Variables.Scope, a: Uuid, d: Nodes.InputDecl, ghost g0: Graph,
                    ghost rank: map<Uuid, nat>)
    returns (outcome: Result<()>, more: seq<Uuid>)
    requires Ready(dag.Value(), scope, rank) && a in dag.nodes && d in Nodes.InputDecls(dag.nodes[a].kind)
    requires Ready(g0, scope, rank) && a in g0.nodes && Evolves(g0, dag.Value())
    requires Untouched(g0, dag.Value(), {a} + Dag.After(g0, a))
    modifies dag
    ensures Ready(dag.Value(), scope, rank)
    ensures Step(old(dag.Value()), dag.Value(), {a} + Dag.After(old(dag.Value()), a), more)
    ensures forall v :: v in more ==> v == a || v in Dag.After(old(dag.Value()), a)
    ensures outcome.Ok? ==> Handled(g0, dag.Value(), scope, a, d, rank)
    ensures Dag.Binding(old(dag.Value()), scope, a, d.name).None? ==>
      outcome == Err("AttributeError: 'NoneType' object has no attribute 'allPossibleOutputTypes'")
    decreases Height(rank, a), 5
  {
    ghost var g1 := dag.Value();
    var b := Dag.Binding(dag.Value(), scope, a, d.name);
    if b.None? {
      StepRefl(g1, {a} + Dag.After(g1, a));
      outcome, more := Err("AttributeError: 'NoneType' object has no attribute 'allPossibleOutputTypes'"), [];
    } else {
      var t := Dag.OutputType(dag.Value(), scope, b.value.0, b.value.1, rank);
      SeenAsBefore(g0, g1, scope, a, d, rank);
      var reject := t !in Nodes.PossibleTypes(d.packetType);
      outcome, more := ChangeThenClear(dag, scope, a, d, reject, rank);
      if outcome.Ok? {
        HandledBy(g0, dag.Value(), scope, a, d, rank, reject);
      }
    }
  }

  lemma HandledBy(g0: Graph, h: Graph, scope: Variables.Scope, a: Uuid, d: Nodes.InputDecl, rank: map<Uuid, nat>,
                  reject: bool)
    requires Ready(g0, scope, rank) && a in g0.nodes && a in h.nodes
    requires Rejected(g0, scope, a, d, rank) == Some(reject)
    requires reject ==> Nodes.InputKey(d.name) in h.nodes[a].props && Cleared(h.nodes[a].props[Nodes.InputKey(d.name)])
    ensures Handled(g0, h, scope, a, d, rank)
  {
  }

  /** The rest of one turn of `CheckInput`: the input's change is
      propagated, then the input is cleared if `reject`. */
  method ChangeThenClear(dag: Dag.Dag, scope: Variables.Scope, a: Uuid, d: Nodes.InputDecl, reject: bool,
                         ghost rank: map<Uuid, nat>)
    returns (outcome: Result<()>, more: seq<Uuid>)
    requires Ready(dag.Value(), scope, rank) && a in dag.nodes && d in Nodes.InputDecls(dag.nodes[a].kind)
    modifies dag
    ensures Ready(dag.Value(), scope, rank)
    ensures Step(old(dag.Value()), dag.Value(), {a} + Dag.After(old(dag.Value()), a), more)
    ensures forall v :: v in more ==> v == a || v in Dag.After(old(dag.Value()), a)
    ensures outcome.Ok? && reject ==>
      Nodes.InputKey(d.name) in dag.nodes[a].props && Cleared(dag.nodes[a].props[Nodes.InputKey(d.name)])
    decreases Height(rank, a), 4
  {
    ghost var g1 := dag.Value();
    outcome, more := InputChanged(dag, scope, a, d, rank);
    if outcome.Ok? && reject {
      ghost var g2 := dag.Value();
      var n := ClearInput(dag.nodes[a], d.name);
      dag.nodes := dag.nodes[a := n];
      ClearStep(g1, g2, dag.Value(), scope, rank, a, d, more);
      more := more + [a];
    }
  }

  /** Clearing input `d` of `a` after a cascade below `a` extends the
      cascade's step and keeps the graph ready. */
  lemma ClearStep(g1: Graph, g2: Graph, h: Graph, scope: Variables.Scope, rank: map<Uuid, nat>, a: Uuid,
                  d: Nodes.InputDecl, more: seq<Uuid>)
    requires Ready(g2, scope, rank) && a in g2.nodes && d in Nodes.InputDecls(g2.nodes[a].kind)
    requires Step(g1, g2, {a} + Dag.After(g1, a), more)
    requires h.nodes == g2.nodes[a := ClearInput(g2.nodes[a], d.name)]
    requires h.edges == g2.edges && h.stale == g2.stale && h.groups == g2.groups
    ensures Ready(h, scope, rank) && Step(g1, h, {a} + Dag.After(g1, a), more + [a])
    ensures Nodes.InputKey(d.name) in h.nodes[a].props && Cleared(h.nodes[a].props[Nodes.InputKey(d.name)])
  {
    StoreReady(g2, scope, rank, a, h.nodes[a]);
    assert h == g2.(nodes := g2.nodes[a := h.nodes[a]]);
    StepTrans(g1, g2, h, {a} + Dag.After(g1, a), {a}, more, [a]);
  }

  /** The second loop of `dagNodeOutputChanged`, over the direct dependents
      `direct`, in the order returned as `visited`. */
  method ResyncAll(dag: Dag.Dag, scope: Variables.Scope, u: Uuid, direct: set<Uuid>, ghost rank: map<Uuid, nat>)
    returns (outcome: Result<()>, changed: seq<Uuid>, visited: seq<Uuid>)
    requires Ready(dag.Value(), scope, rank) && direct <= dag.nodes.Keys
    modifies dag
    ensures Ready(dag.Value(), scope, rank) && RangesOnly(old(dag.Value()), dag.Value())
    ensures Step(old(dag.Value()), dag.Value(), direct, changed)
    ensures forall v :: v in changed ==> v in direct
    ensures outcome.Ok? ==> forall a :: a in visited <==> a in direct
    ensures outcome.Ok? ==> forall a :: a in direct ==> InSync(dag.Value(), scope, a)
  {
    ghost var g0 := dag.Value();
    var rest := direct;
    changed, visited := [], [];
    StepRefl(g0, direct);
    while rest != {}
      invariant rest <= direct
      invariant Dag.Valid(dag.Value()) && RangesOnly(g0, dag.Value())
      invariant Step(g0, dag.Value(), direct, changed)
      invariant forall v :: v in changed ==> v in direct
      invariant forall a :: a in visited <==> a in direct - rest
      invariant forall a :: a in direct - rest ==> InSync(dag.Value(), scope, a)
      decreases rest
    {
      var a :| a in rest;
      ghost var g1 := dag.Value();
      RangesOnlyDeclares(g0, g1, a);
      var more;
      outcome, more := ResyncInputs(dag, scope, a);
      ResyncTurn(g0, g1, dag.Value(), scope, direct, rest, a, changed, more);
      changed := changed + more;
      if outcome.Err? {
        RangesOnlyReady(g0, dag.Value(), scope, rank);
        return;
      }
      VisitTurn(direct, rest, visited, a);
      rest := rest - {a};
      visited := visited + [a];
    }
    RangesOnlyReady(g0, dag.Value(), scope, rank);
    outcome := Ok(());
  }

  /** Moving ranges keeps the entries a node declares. */
  lemma RangesOnlyDeclares(g: Graph, h: Graph, a: Uuid)
    requires RangesOnly(g, h) && a in g.nodes && Declares(g.nodes[a])
    ensures Declares(h.nodes[a])
  {
  }

  /** Visiting `a` of the nodes `rest` still to visit. */
  lemma VisitTurn(direct: set<Uuid>, rest: set<Uuid>, visited: seq<Uuid>, a: Uuid)
    requires a in rest && rest <= direct && forall b :: b in visited <==> b in direct - rest
    ensures forall b :: b in visited + [a] <==> b in direct - (rest - {a})
  {
  }

  /** One turn of the loop of `ResyncAll`, on the dependent `a`: the nodes
      already visited stay in step, and the changes so far stay within the
      direct dependents and are reported. */
  lemma ResyncTurn(g0: Graph, g1: Graph, h: Graph, scope: Variables.Scope, direct: set<Uuid>, rest: set<Uuid>, a: Uuid,
                   changed: seq<Uuid>, more: seq<Uuid>)
    requires Dag.Valid(g1) && Dag.Valid(h) && RangesOnly(g0, g1) && RangesOnly(g1, h)
    requires Step(g0, g1, direct, changed) && Step(g1, h, {a}, more) && a in rest && rest <= direct
    requires (forall v :: v in changed ==> v in direct) && (forall v :: v in more ==> v == a)
    requires forall b :: b in direct - rest ==> InSync(g1, scope, b)
    ensures RangesOnly(g0, h) && Step(g0, h, direct, changed + more)
    ensures forall v :: v in changed + more ==> v in direct
    ensures InSync(h, scope, a) ==> forall b :: b in direct - (rest - {a}) ==> InSync(h, scope, b)
  {
    RangesOnlyTrans(g0, g1, h);
    StepTrans(g0, g1, h, direct, {a}, changed, more);
    forall b | b in direct - rest
      ensures InSync(h, scope, b)
    {
      InSyncKept(g1, h, scope, b);
    }
  }

  /** The second loop of `dagNodeOutputChanged` for one dependent `a`: each
      input takes the range `getSeqRange` reports for its source output,
      and `a` is reported once for every input whose range changed. An
      unbound input raises, after the inputs before it were updated. Only
      ranges of inputs of `a` move; when nothing raised, `a` is in step with
      its sources, and it raises exactly when some input of `a` is
      unbound. */
  method ResyncInputs(dag: Dag.Dag, scope: Variables.Scope, a: Uuid)
    returns (outcome: Result<()>, changed: seq<Uuid>)
    requires Dag.Valid(dag.Value()) && a in dag.nodes && Declares(dag.nodes[a])
    modifies dag
    ensures Dag.Valid(dag.Value()) && RangesOnly(old(dag.Value()), dag.Value())
    ensures Step(old(dag.Value()), dag.Value(), {a}, changed) && forall v :: v in changed ==> v == a
    ensures outcome.Ok? <==> AllBound(old(dag.Value()), scope, a)
    ensures outcome.Ok? ==> InSync(dag.Value(), scope, a)
    ensures outcome.Err? ==> outcome.reason == "AttributeError: 'NoneType' object has no attribute 'getSeqRange'"
  {
    var g := dag.Value();
    var bound, n;
    bound, n, changed := ResyncNode(g, scope, a);
    dag.nodes := dag.nodes[a := n];
    StoreSynced(g, dag.Value(), scope, a, n, changed);
    outcome := if bound then Ok(()) else Err("AttributeError: 'NoneType' object has no attribute 'getSeqRange'");
  }

  /** The loop of `ResyncInputs` on the node `a` of `g`, updated in place
      as `n`: no other node is read or written while it runs, since no
      input of `a` is bound to an output of `a`'s own. `bound` is false when
      the loop stopped at an unbound input. */
  method ResyncNode(g: Graph, scope: Variables.Scope, a: Uuid)
    returns (bound: bool, n: Node, changed: seq<Uuid>)
    requires Dag.Valid(g) && a in g.nodes && Declares(g.nodes[a])
    ensures NodeRangesOnly(g.nodes[a], n) && (n != g.nodes[a] ==> a in changed)
    ensures forall v :: v in changed ==> v == a
    ensures bound <==> AllBound(g, scope, a)
    ensures bound ==> forall d :: d in Nodes.InputDecls(g.nodes[a].kind) ==> Synced(g, scope, a, n, d.name)
  {
    n := g.nodes[a];
    var ds := Nodes.InputDecls(n.kind);
    changed := [];
    var i := 0;
    bound := true;
    while i < |ds| && bound
      invariant SyncLoop(g, scope, a, ds, i, n, changed)
      invariant !bound ==> i < |ds| && Dag.Binding(g, scope, a, ds[i].name).None?
      decreases |ds| - i, if bound then 1 else 0
    {
      bound, n, changed := SyncOne(g, scope, a, ds, i, n, changed);
      if bound {
        i := i + 1;
      }
    }
    SyncExit(g, scope, a, ds, i, n, changed, bound);
  }

  /** Every input `a` declares is bound to an output. */
  ghost predicate AllBound(g: Graph, scope: Variables.Scope, a: Uuid)
    requires Dag.Valid(g) && a in g.nodes
  {
    forall d :: d in Nodes.InputDecls(g.nodes[a].kind) ==> Dag.Binding(g, scope, a, d.name).Some?
  }

  /** The state of the loop of `ResyncNode` after `i` inputs. */
  ghost predicate SyncLoop(g: Graph, scope: Variables.Scope, a: Uuid, ds: seq<Nodes.InputDecl>, i: int, n: Node,
                           changed: seq<Uuid>)
  {
    Dag.Valid(g) && a in g.nodes && Declares(g.nodes[a]) && ds == Nodes.InputDecls(g.nodes[a].kind) &&
    0 <= i <= |ds| && NodeRangesOnly(g.nodes[a], n) && (n != g.nodes[a] ==> a in changed) &&
    (forall v :: v in changed ==> v == a) &&
    forall j :: 0 <= j < i ==> Nodes.InputKey(ds[j].name) in n.props && Synced(g, scope, a, n, ds[j].name)
  }

  /** One turn of the loop of `ResyncNode`, on input `ds[i]`: when it is
      bound, its range is set to the one its source reports. */
  method SyncOne(g: Graph, scope: Variables.Scope, a: Uuid, ds: seq<Nodes.InputDecl>, i: int, n: Node,
                 changed: seq<Uuid>)
    returns (bound: bool, n': Node, changed': seq<Uuid>)
    requires SyncLoop(g, scope, a, ds, i, n, changed) && i < |ds|
    ensures bound <==> Dag.Binding(g, scope, a, ds[i].name).Some?
    ensures SyncLoop(g, scope, a, ds, if bound then i + 1 else i, n', changed')
  {
    var name := ds[i].name;
    var b := Dag.Binding(g, scope, a, name);
    if b.None? {
      return false, n, changed;
    }
    var want := Nodes.GetSeqRange(OutputRange(g.nodes[b.value.0], b.value.1));
    SyncStep(g, scope, a, n, want, ds, i);
    bound, n', changed' := true, n, changed;
    if StoredRange(n, name) != want {
      n' := SetRange(n, name, want);
      changed' := changed + [a];
    }
  }

  /** Leaving the loop of `ResyncNode`, after all inputs or at an unbound
      one. */
  lemma SyncExit(g: Graph, scope: Variables.Scope, a: Uuid, ds: seq<Nodes.InputDecl>, i: int, n: Node,
                 changed: seq<Uuid>, bound: bool)
    requires SyncLoop(g, scope, a, ds, i, n, changed)
    requires bound ==> i == |ds|
    requires !bound ==> i < |ds| && Dag.Binding(g, scope, a, ds[i].name).None?
    ensures NodeRangesOnly(g.nodes[a], n) && (n != g.nodes[a] ==> a in changed)
    ensures forall v :: v in changed ==> v == a
    ensures bound <==> AllBound(g, scope, a)
    ensures bound ==> forall d :: d in Nodes.InputDecls(g.nodes[a].kind) ==> Synced(g, scope, a, n, d.name)
  {
    if bound {
      SyncedAll(g, scope, a, n, ds);
    } else {
      assert ds[i] in Nodes.InputDecls(g.nodes[a].kind);
    }
  }

  /** Every declared input of `a` is in step on `n` when they are so one by
      one. */
  lemma SyncedAll(g: Graph, scope: Variables.Scope, a: Uuid, n: Node, ds: seq<Nodes.InputDecl>)
    requires Dag.Valid(g) && a in g.nodes && Declares(g.nodes[a]) && ds == Nodes.InputDecls(g.nodes[a].kind)
    requires NodeRangesOnly(g.nodes[a], n)
    requires forall j :: 0 <= j < |ds| ==> Synced(g, scope, a, n, ds[j].name)
    ensures forall d :: d in ds ==> Synced(g, scope, a, n, d.name)
  {
    forall d | d in ds
      ensures Synced(g, scope, a, n, d.name)
    {
      var j :| 0 <= j < |ds| && ds[j] == d;
    }
  }

  /** Input `name` of `n`, the node `a` of `g` after some of its input ranges
      moved, holds the range its source in `g` reports. */
  ghost predicate Synced(g: Graph, scope: Variables.Scope, a: Uuid, n: Node, name: string)
    requires Dag.Valid(g) && a in g.nodes && Nodes.InputKey(name) in n.props
  {
    var b := Dag.Binding(g, scope, a, name);
    b.Some? && StoredRange(n, name) == Nodes.GetSeqRange(OutputRange(g.nodes[b.value.0], b.value.1))
  }

  lemma NodeRangesOnlyEvolves(m: Node, n: Node)
    requires NodeRangesOnly(m, n)
    ensures NodeEvolves(m, n)
  {
    forall k | k in m.props
      ensures PropEvolves(m.props[k], n.props[k])
    {
      assert PropRangeOnly(m.props[k], n.props[k]);
    }
  }

  /** One turn of the loop of `ResyncInputs`, on input `ds[i]`, bound in `g`
      to a source reporting `want`: the node may take the range, it keeps
      its moved ranges only, and the inputs before and at `i` are in step. */
  lemma SyncStep(g: Graph, scope: Variables.Scope, a: Uuid, n: Node, want: Nodes.Range,
                 ds: seq<Nodes.InputDecl>, i: nat)
    requires Dag.Valid(g) && a in g.nodes && Declares(g.nodes[a]) && NodeRangesOnly(g.nodes[a], n)
    requires ds == Nodes.InputDecls(g.nodes[a].kind) && i < |ds|
    requires var b := Dag.Binding(g, scope, a, ds[i].name);
      b.Some? && want == Nodes.GetSeqRange(OutputRange(g.nodes[b.value.0], b.value.1))
    requires forall j :: 0 <= j < i ==> Synced(g, scope, a, n, ds[j].name)
    ensures Nodes.Wf(n) && Nodes.InputKey(ds[i].name) in n.props && StoredValue(n, ds[i].name) != ""
    ensures NodeRangesOnly(g.nodes[a], SetRange(n, ds[i].name, want))
    ensures StoredRange(n, ds[i].name) == want ==> forall j :: 0 <= j <= i ==> Synced(g, scope, a, n, ds[j].name)
    ensures forall j :: 0 <= j <= i ==> Synced(g, scope, a, SetRange(n, ds[i].name, want), ds[j].name)
  {
    var name := ds[i].name;
    BoundNotEmpty(g, scope, a, name);
    SetRangeMoves(g.nodes[a], n, name, want);
    var m := SetRange(n, name, want);
    forall j | 0 <= j <= i
      ensures Synced(g, scope, a, m, ds[j].name)
    {
      if j < i {
        Nodes.KindAtKey(n, Nodes.InputKey(ds[j].name));
        assert StoredRange(m, ds[j].name) == StoredRange(n, ds[j].name);
      } else {
        assert j == i;
      }
    }
    if StoredRange(n, name) == want {
      forall j | 0 <= j <= i
        ensures Synced(g, scope, a, n, ds[j].name)
      {
        if j == i {
          assert ds[j].name == name;
        }
      }
    }
  }

  /** Setting the range of an input with a value, on a node whose input
      ranges only have moved, moves only input ranges. */
  lemma SetRangeMoves(m0: Node, n: Node, name: string, want: Nodes.Range)
    requires Nodes.Wf(m0) && NodeRangesOnly(m0, n) && Nodes.InputKey(name) in m0.props
    requires StoredValue(m0, name) != ""
    ensures Nodes.Wf(n) && StoredValue(n, name) != ""
    ensures NodeRangesOnly(m0, SetRange(n, name, want))
  {
    var key := Nodes.InputKey(name);
    NodeRangesOnlyEvolves(m0, n);
    NodeEvolvesWf(m0, n);
    Nodes.KindAtKey(m0, key);
    assert PropRangeOnly(m0.props[key], n.props[key]);
    var m := SetRange(n, name, want);
    var p0 := m0.props[key];
    assert m.props[key] == Nodes.InputProp(p0.name, p0.packetType, p0.required, p0.value, want);
    forall k | k in m0.props
      ensures PropRangeOnly(m0.props[k], m.props[k])
    {
      assert PropRangeOnly(m0.props[k], n.props[k]);
    }
  }

  /** Writing `n` back as node `a` of `g`: the graph stays ready, only input
      ranges moved, the change is reported, and the inputs in step on `n`
      are in step in the graph. */
  lemma StoreSynced(g: Graph, h: Graph, scope: Variables.Scope, a: Uuid, n: Node, changed: seq<Uuid>)
    requires Dag.Valid(g) && a in g.nodes && Declares(g.nodes[a]) && NodeRangesOnly(g.nodes[a], n)
    requires h.nodes == g.nodes[a := n] && h.edges == g.edges && h.stale == g.stale && h.groups == g.groups
    requires n != g.nodes[a] ==> a in changed
    ensures Dag.Valid(h) && RangesOnly(g, h)
    ensures Step(g, h, {a}, changed)
    ensures (forall d :: d in Nodes.InputDecls(g.nodes[a].kind) ==> Synced(g, scope, a, n, d.name)) ==>
      InSync(h, scope, a)
  {
    assert RangesOnly(g, h);
    RangesOnlyValid(g, h);
    RangesOnlyEvolves(g, h);
    forall d | d in Nodes.InputDecls(g.nodes[a].kind) && Synced(g, scope, a, n, d.name)
      ensures InputInSync(h, scope, a, d.name)
    {
      BindingSame(g, h, scope, a, d.name);
      var (p, o) := Dag.Binding(g, scope, a, d.name).value;
      OutputRangeSame(g, h, p, o);
    }
  }

  /** Moving input ranges moves no output range. */
  lemma OutputRangeSame(g: Graph, h: Graph, p: Uuid, o: string)
    requires Dag.Valid(g) && RangesOnly(g, h) && p in g.nodes && Nodes.OutputKey(o) in g.nodes[p].props
    ensures OutputRange(h.nodes[p], o) == OutputRange(g.nodes[p], o)
  {
    Nodes.KindAtKey(g.nodes[p], Nodes.OutputKey(o));
    assert PropRangeOnly(g.nodes[p].props[Nodes.OutputKey(o)], h.nodes[p].props[Nodes.OutputKey(o)]);
  }
}
