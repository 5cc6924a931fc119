/** Marking stale children in the main window (`dagSetChildrenStale`):
    after a node changed, every node depending on it whose data is on disk
    is flagged stale. Only the stale flags change. Whether a file exists is
    a parameter. */
module Stale {
  import opened Wrappers
  import Closure
  import Packets
  import Nodes
  import Variables
  import Dag

  type Uuid = Packets.Uuid
  type Graph = Dag.Graph

  /** What the main window needs of a graph to build packets from it. */
  ghost predicate Packable(g: Graph, scope: Variables.Scope, rank: map<Uuid, nat>) {
    Dag.Valid(g) && Dag.BindingsOnEdges(g, scope) && Closure.IsRanking(rank, g.nodes.Keys, g.edges)
  }

  /** How often `dagSetChildrenStale` reports node `a`: once per output when
      the packet of its first output (which `nodeOutputDataPacket` returns
      whatever output is asked about) has its data present, else never. A
      packet that cannot be built raises. */
  ghost function Marks(g: Graph, scope: Variables.Scope, a: Uuid, rank: map<Uuid, nat>, fileExists: string -> bool)
    : (r: Result<nat>)
    requires Packable(g, scope, rank) && a in g.nodes
    ensures r.Err? <==> Nodes.OutputNames(g.nodes[a]) != [] && Dag.OutputDataPacket(g, scope, a, rank).Err?
    ensures r.Ok? && r.value > 0 <==>
      Nodes.OutputNames(g.nodes[a]) != [] && Dag.OutputDataPacket(g, scope, a, rank).Ok? &&
      Packets.DataPresentSpec(Dag.OutputDataPacket(g, scope, a, rank).value, None, fileExists) == Ok(true)
    ensures r.Ok? && r.value > 0 ==> r.value == |Nodes.OutputNames(g.nodes[a])|
  {
    var outs := Nodes.OutputNames(g.nodes[a]);
    if outs == [] then Ok(0)
    else match Dag.OutputDataPacket(g, scope, a, rank)
      case Err(e) => Err(e)
      case Ok(p) => if Packets.DataPresentSpec(p, None, fileExists) == Ok(true) then Ok(|outs|) else Ok(0)
  }

  /** The verdicts of `Marks` on the nodes `S`. */
  ghost function Verdicts(g: Graph, scope: Variables.Scope, S: set<Uuid>, rank: map<Uuid, nat>,
                          fileExists: string -> bool): (r: map<Uuid, Result<nat>>)
    requires Packable(g, scope, rank) && S <= g.nodes.Keys
    ensures r.Keys == S && forall a :: a in S ==> r[a] == Marks(g, scope, a, rank, fileExists)
  {
    map a | a in S :: Marks(g, scope, a, rank, fileExists)
  }

  /** The nodes of `S` whose verdict marks them stale. */
  function Marked(verdict: map<Uuid, Result<nat>>, S: set<Uuid>): (r: set<Uuid>)
    ensures r <= S
    ensures forall a :: a in S ==> (a in r <==> a in verdict && verdict[a].Ok? && verdict[a].value > 0)
  {
    set a | a in S && a in verdict && verdict[a].Ok? && verdict[a].value > 0
  }

  /** How often a node of `S` is reported. */
  function Count(verdict: map<Uuid, Result<nat>>, S: set<Uuid>, v: Uuid): nat {
    if v in S && v in verdict && verdict[v].Ok? then verdict[v].value else 0
  }

  /** The stale map `m` with every node of `S` set. */
  function SetAll(m: map<Uuid, bool>, S: set<Uuid>): (r: map<Uuid, bool>)
    ensures forall v :: v in r <==> v in m || v in S
    ensures forall v :: v in S ==> r[v]
    ensures forall v :: v in m && v !in S ==> r[v] == m[v]
  {
    map v | v in m.Keys + S :: if v in S then true else m[v]
  }

  lemma SetAllEmpty(m: map<Uuid, bool>)
    ensures SetAll(m, {}) == m
  {
  }

  /** Setting one more node. */
  lemma SetAllMore(m: map<Uuid, bool>, S: set<Uuid>, a: Uuid)
    ensures SetAll(m, S)[a := true] == SetAll(m, S + {a})
  {
  }

  /** The inner loop of `dagSetChildrenStale`, over the outputs of `a`,
      whose verdict is `v`. The packet asked about is the same for every
      output, so the first turn raises or every turn agrees. */
  method MarkNode(dag: Dag.Dag, g: Graph, scope: Variables.Scope, a: Uuid, ghost rank: map<Uuid, nat>,
                  fileExists: string -> bool, ghost v: Result<nat>)
    returns (outcome: Result<()>, more: seq<Uuid>)
    requires Packable(g, scope, rank) && a in g.nodes && v == Marks(g, scope, a, rank, fileExists)
    requires dag.nodes == g.nodes && dag.edges == g.edges && dag.groups == g.groups
    modifies dag
    ensures dag.nodes == g.nodes && dag.edges == g.edges && dag.groups == g.groups
    ensures outcome.Ok? <==> v.Ok?
    ensures v.Err? ==> dag.stale == old(dag.stale) && more == []
    ensures v.Ok? ==> more == seq(v.value, _ => a)
    ensures v.Ok? && v.value > 0 ==> dag.stale == old(dag.stale)[a := true]
    ensures v.Ok? && v.value == 0 ==> dag.stale == old(dag.stale)
  {
    var outs := Nodes.OutputNames(g.nodes[a]);
    ghost var hit := v.Ok? && v.value > 0;
    ghost var p := Dag.OutputDataPacket(g, scope, a, rank);
    assert outs != [] ==>
      (v.Err? <==> p.Err?) && (hit <==> p.Ok? && Packets.DataPresentSpec(p.value, None, fileExists) == Ok(true));
    more := [];
    var i := 0;
    while i < |outs|
      invariant 0 <= i <= |outs|
      invariant dag.nodes == g.nodes && dag.edges == g.edges && dag.groups == g.groups
      invariant i > 0 ==> v.Ok?
      invariant |more| == (if hit then i else 0) && forall k :: 0 <= k < |more| ==> more[k] == a
      invariant dag.stale == if hit && i > 0 then old(dag.stale)[a := true] else old(dag.stale)
    {
      var packet := Dag.OutputDataPacket(g, scope, a, rank);
      if packet.Err? {
        return Err(packet.reason), [];
      }
      if Packets.DataPresentSpec(packet.value, None, fileExists) == Ok(true) {
        ghost var st := dag.stale;
        dag.SetNodeStale(a, true);
        assert dag.stale == st[a := true];
        SetTwice(old(dag.stale), a);
        more := more + [a];
      }
      i := i + 1;
    }
    Repeated(more, a);
    outcome := Ok(());
  }

  lemma SetTwice(m: map<Uuid, bool>, a: Uuid)
    ensures m[a := true][a := true] == m[a := true]
  {
  }

  lemma Repeated(s: seq<Uuid>, a: Uuid)
    requires forall k :: 0 <= k < |s| ==> s[k] == a
    ensures s == seq(|s|, _ => a)
  {
  }

  /** `dagSetChildrenStale(u)`: every node depending on `u`, directly or
      not, is flagged stale when the data of its first output is present,
      and reported once per output. Finding those nodes raises, before any
      flag is set, when the scene graph of a node after `u` cannot be
      built; a packet that cannot be built raises, leaving the nodes
      handled before it marked. Nothing but stale flags changes. */
  method SetChildrenStale(dag: Dag.Dag, scope: Variables.Scope, u: Uuid, ghost rank: map<Uuid, nat>,
                          fileExists: string -> bool)
    returns (outcome: Result<()>, affected: seq<Uuid>)
    requires Packable(dag.Value(), scope, rank) && u in dag.nodes
    modifies dag
    ensures dag.nodes == old(dag.nodes) && dag.edges == old(dag.edges) && dag.groups == old(dag.groups)
    ensures StaleOutcome(old(dag.Value()), scope, u, rank, fileExists, dag.stale, outcome, affected)
  {
    var g := dag.Value();
    var query := Dag.AllNodesDependingOn(g, scope, u, true, rank);
    Dag.AfterInGraph(g, u);
    if query.Err? {
      return Err(query.reason), [];
    }
    var all := query.value;
    ghost var verdict := Verdicts(g, scope, all, rank, fileExists);
    var rest := all;
    ghost var done: set<Uuid> := {};
    affected := [];
    outcome := Ok(());
    MarkStart(verdict, all, g.stale);
    while rest != {} && outcome.Ok?
      invariant rest <= all && done == all - rest
      invariant dag.nodes == g.nodes && dag.edges == g.edges && dag.groups == g.groups
      invariant MarkLoop(verdict, all, done, g.stale, dag.stale, affected, outcome.Ok?)
      decreases rest
    {
      var a :| a in rest;
      ghost var stale := dag.stale;
      var more;
      outcome, more := MarkNode(dag, g, scope, a, rank, fileExists, verdict[a]);
      MarkTurn(verdict, all, done, a, g.stale, stale, dag.stale, affected, more, outcome.Ok?);
      affected := affected + more;
      Closure.Moved(all, rest, done, a);
      rest := rest - {a};
      done := done + {a};
    }
    MarkExit(verdict, all, done, g.stale, dag.stale, affected, outcome.Ok?);
    assert MarkedOutcome(g, scope, u, rank, fileExists, dag.stale, outcome, affected);
  }

  /** What `dagSetChildrenStale(u)` leaves behind, over the graph `g` it
      started from, the new stale flags `stale`, its outcome and the nodes it
      reported. Finding the nodes depending on `u` raises, changing
      nothing, when the scene graph of some node after `u` cannot be built.
      Otherwise it raises exactly when some node depending on `u` has a
      verdict that raised; when it does not, the flags are those of `g`
      with every marked node set, and each node is reported as often as its
      verdict says; and whatever it did, a flag that changed was set on a
      marked node. */
  ghost predicate StaleOutcome(g: Graph, scope: Variables.Scope, u: Uuid, rank: map<Uuid, nat>,
                               fileExists: string -> bool, stale: map<Uuid, bool>, outcome: Result<()>,
                               affected: seq<Uuid>)
    requires Packable(g, scope, rank) && u in g.nodes
  {
    (Dag.DependentsFail(g, scope, u, rank) ==> outcome.Err? && stale == g.stale && affected == []) &&
    (!Dag.DependentsFail(g, scope, u, rank) ==> MarkedOutcome(g, scope, u, rank, fileExists, stale, outcome, affected))
  }

  /** `StaleOutcome` once the nodes depending on `u` are found. */
  ghost predicate MarkedOutcome(g: Graph, scope: Variables.Scope, u: Uuid, rank: map<Uuid, nat>,
                                fileExists: string -> bool, stale: map<Uuid, bool>, outcome: Result<()>,
                                affected: seq<Uuid>)
    requires Packable(g, scope, rank) && u in g.nodes
  {
    var all := Dag.DependingOn(g, scope, u, true);
    Dag.After(g, u) <= g.nodes.Keys &&
    var verdict := Verdicts(g, scope, all, rank, fileExists);
    (outcome.Err? <==> exists a :: a in all && verdict[a].Err?) &&
    (outcome.Ok? ==> stale == SetAll(g.stale, Marked(verdict, all))) &&
    (outcome.Ok? ==> forall v :: multiset(affected)[v] == Count(verdict, all, v)) &&
    (forall v :: v in stale && (v !in g.stale || stale[v] != g.stale[v]) ==> v in Marked(verdict, all) && stale[v])
  }

  /** A node whose scene graph can be built has a packet for its first
      output, so its verdict does not raise. */
  lemma {:induction false} VerdictsBuilt(g: Graph, scope: Variables.Scope, u: Uuid, rank: map<Uuid, nat>,
                                         fileExists: string -> bool)
    requires Packable(g, scope, rank) && u in g.nodes && !Dag.DependentsFail(g, scope, u, rank)
    ensures forall a :: a in Dag.DependingOn(g, scope, u, true) ==> Marks(g, scope, a, rank, fileExists).Ok?
  {
    Dag.AfterInGraph(g, u);
    forall a | a in Dag.DependingOn(g, scope, u, true)
      ensures Marks(g, scope, a, rank, fileExists).Ok?
    {
      assert !Dag.SceneGraphFails(g, scope, a, rank);
      Dag.HandledWhenBuilt(g, scope, a, rank);
      if Nodes.OutputNames(g.nodes[a]) != [] {
        Nodes.HandledByOutput(g.nodes[a], Dag.Specialization(g, scope, a, rank), scope);
      }
    }
  }

  /** `dagSetChildrenStale(u)` raises exactly when finding the nodes
      depending on `u` raises: once every scene graph after `u` can be
      built, every packet asked about can be built too. */
  lemma SetChildrenStaleRaises(g: Graph, scope: Variables.Scope, u: Uuid, rank: map<Uuid, nat>,
                               fileExists: string -> bool, stale: map<Uuid, bool>, outcome: Result<()>,
                               affected: seq<Uuid>)
    requires Packable(g, scope, rank) && u in g.nodes
    requires StaleOutcome(g, scope, u, rank, fileExists, stale, outcome, affected)
    ensures outcome.Err? <==> Dag.DependentsFail(g, scope, u, rank)
  {
    if !Dag.DependentsFail(g, scope, u, rank) {
      VerdictsBuilt(g, scope, u, rank, fileExists);
    }
  }

  /** The state of the loop of `SetChildrenStale` once the nodes `done` are
      handled: the flags set are those of the marked nodes, and while
      nothing raised, each node handled is reported as often as it is
      marked. */
  ghost predicate MarkLoop(verdict: map<Uuid, Result<nat>>, all: set<Uuid>, done: set<Uuid>, stale0: map<Uuid, bool>,
                     stale: map<Uuid, bool>, affected: seq<Uuid>, ok: bool)
  {
    all <= verdict.Keys && done <= all &&
    (ok ==> (forall a :: a in done ==> verdict[a].Ok?) &&
            stale == SetAll(stale0, Marked(verdict, done)) &&
            forall v :: multiset(affected)[v] == Count(verdict, done, v)) &&
    (!ok ==> exists a :: a in all && verdict[a].Err?) &&
    forall v :: v in stale && (v !in stale0 || stale[v] != stale0[v]) ==> v in Marked(verdict, all) && stale[v]
  }

  lemma MarkStart(verdict: map<Uuid, Result<nat>>, all: set<Uuid>, stale0: map<Uuid, bool>)
    requires all <= verdict.Keys
    ensures MarkLoop(verdict, all, {}, stale0, stale0, [], true)
  {
    SetAllEmpty(stale0);
    assert Marked(verdict, {}) == {};
  }

  /** Leaving the loop of `SetChildrenStale`, after every node or at one
      that raised. */
  lemma MarkExit(verdict: map<Uuid, Result<nat>>, all: set<Uuid>, done: set<Uuid>, stale0: map<Uuid, bool>,
                 stale: map<Uuid, bool>, affected: seq<Uuid>, ok: bool)
    requires MarkLoop(verdict, all, done, stale0, stale, affected, ok)
    requires ok ==> done == all
    ensures ok <==> !exists a :: a in all && verdict[a].Err?
    ensures ok ==> stale == SetAll(stale0, Marked(verdict, all))
    ensures ok ==> forall v :: multiset(affected)[v] == Count(verdict, all, v)
    ensures forall v :: v in stale && (v !in stale0 || stale[v] != stale0[v]) ==> v in Marked(verdict, all) && stale[v]
  {
  }

  /** One turn of the loop of `SetChildrenStale` on `a`: the marks and the
      counts of the nodes handled so far grow by those of `a`. */
  lemma MarkTurn(verdict: map<Uuid, Result<nat>>, all: set<Uuid>, done: set<Uuid>, a: Uuid, stale0: map<Uuid, bool>,
                 stale: map<Uuid, bool>, stale': map<Uuid, bool>, affected: seq<Uuid>, more: seq<Uuid>, ok: bool)
    requires MarkLoop(verdict, all, done, stale0, stale, affected, true) && a in all && a !in done
    requires ok <==> verdict[a].Ok?
    requires !ok ==> stale' == stale && more == []
    requires ok ==> more == seq(verdict[a].value, _ => a)
    requires ok && verdict[a].value > 0 ==> stale' == stale[a := true]
    requires ok && verdict[a].value == 0 ==> stale' == stale
    ensures MarkLoop(verdict, all, done + {a}, stale0, stale', affected + more, ok)
  {
    var marked := Marked(verdict, done);
    if ok {
      var k := verdict[a].value;
      RepeatCount(a, k);
      assert multiset(affected + more) == multiset(affected) + multiset(more);
      if k > 0 {
        assert Marked(verdict, done + {a}) == marked + {a};
        SetAllMore(stale0, marked, a);
      } else {
        assert Marked(verdict, done + {a}) == marked;
      }
    }
  }

  /** `k` copies of `a` hold `a` `k` times and nothing else. */
  lemma {:induction false} RepeatCount(a: Uuid, k: nat)
    ensures multiset(seq(k, _ => a)) == multiset{}[a := k]
  {
    if k > 0 {
      RepeatCount(a, k - 1);
      assert seq(k, _ => a) == seq(k - 1, _ => a) + [a];
    } else {
      assert seq(k, _ => a) == [];
    }
  }
}
