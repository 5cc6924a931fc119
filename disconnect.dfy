/** Disconnecting a node in the main window (`dagNodeDisconnected`): before
    the graph loses a node or an edge, every input of every node after it
    that draws from the node or from something before it is cleared, and
    the change of that input is propagated. */
module Disconnection {
  import opened Wrappers
  import Packets
  import Nodes
  import Variables
  import Dag
  import Closure
  import opened Propagation

  /** Input `name` of `a` draws from none of the nodes `up`. */
  ghost predicate Detached(g: Graph, scope: Variables.Scope, a: Uuid, name: string, up: set<Uuid>)
    requires Dag.Valid(g) && a in g.nodes
  {
    Dag.Binding(g, scope, a, name).None? || Dag.Binding(g, scope, a, name).value.0 !in up
  }

  /** Propagation never binds an input anew, so a detached input stays
      detached. */
  lemma DetachedKept(g: Graph, h: Graph, scope: Variables.Scope, a: Uuid, name: string, up: set<Uuid>)
    requires Dag.Valid(g) && Dag.Valid(h) && Evolves(g, h) && a in g.nodes
    requires Detached(g, scope, a, name, up)
    ensures Detached(h, scope, a, name, up)
  {
    BindingKept(g, h, scope, a, name);
  }

  /** A cleared input is bound to nothing. */
  lemma ClearedUnbound(g: Graph, scope: Variables.Scope, a: Uuid, name: string)
    requires Dag.Valid(g) && a in g.nodes && Nodes.InputKey(name) in g.nodes[a].props
    requires Cleared(g.nodes[a].props[Nodes.InputKey(name)])
    ensures Dag.Binding(g, scope, a, name).None?
  {
    if Dag.Binding(g, scope, a, name).Some? {
      BoundNotEmpty(g, scope, a, name);
    }
  }

  /** The body of the inner loop of `dagNodeDisconnected`, on input `d` of
      `a`: when its source is one of the nodes `up`, the input is cleared
      (value and range) and its change propagated. Afterwards the input
      draws from none of `up`; an input that already did not is left
      alone. */
  method DisconnectInput(dag: Dag.Dag, scope: Variables.Scope, a: Uuid, d: Nodes.InputDecl, up: set<Uuid>,
                         ghost rank: map<Uuid, nat>)
    returns (outcome: Result<()>, more: seq<Uuid>)
    requires Ready(dag.Value(), scope, rank) && a in dag.nodes && d in Nodes.InputDecls(dag.nodes[a].kind)
    modifies dag
    ensures Ready(dag.Value(), scope, rank)
    ensures Step(old(dag.Value()), dag.Value(), {a} + Dag.After(old(dag.Value()), a), more)
    ensures forall v :: v in more ==> v == a || v in Dag.After(old(dag.Value()), a)
    ensures outcome.Ok? ==> Detached(dag.Value(), scope, a, d.name, up)
    ensures Detached(old(dag.Value()), scope, a, d.name, up) ==>
      outcome == Ok(()) && more == [] && dag.Value() == old(dag.Value())
  {
    var b := Dag.Binding(dag.Value(), scope, a, d.name);
    if b.Some? && b.value.0 in up {
      outcome, more := ClearThenChange(dag, scope, a, d, rank);
    } else {
      StepRefl(dag.Value(), {a} + Dag.After(dag.Value(), a));
      outcome, more := Ok(()), [];
    }
  }

  /** Clearing input `d` of `a` (value and range), reporting `a`, then
      propagating the change of the input. Afterwards the input is bound
      to nothing. */
  method ClearThenChange(dag: Dag.Dag, scope: Variables.Scope, a: Uuid, d: Nodes.InputDecl, ghost rank: map<Uuid, nat>)
    returns (outcome: Result<()>, more: seq<Uuid>)
    requires Ready(dag.Value(), scope, rank) && a in dag.nodes && d in Nodes.InputDecls(dag.nodes[a].kind)
    modifies dag
    ensures Ready(dag.Value(), scope, rank)
    ensures Step(old(dag.Value()), dag.Value(), {a} + Dag.After(old(dag.Value()), a), more)
    ensures |more| > 0 && more[0] == a
    ensures forall v :: v in more ==> v == a || v in Dag.After(old(dag.Value()), a)
    ensures Dag.Binding(dag.Value(), scope, a, d.name).None?
  {
    ghost var g1 := dag.Value();
    var n := ClearInput(dag.nodes[a], d.name);
    dag.nodes := dag.nodes[a := n];
    StepRefl(g1, {a} + Dag.After(g1, a));
    ClearStep(g1, g1, dag.Value(), scope, rank, a, d, []);
    ghost var g2 := dag.Value();
    ClearedUnbound(g2, scope, a, d.name);
    var more';
    outcome, more' := InputChanged(dag, scope, a, d, rank);
    ChangeJoin(g1, g2, dag.Value(), scope, a, d.name, more');
    more := [a] + more';
  }

  /** Joining the clearing of an input of `a` and the propagation of its
      change. */
  lemma ChangeJoin(g1: Graph, g2: Graph, h: Graph, scope: Variables.Scope, a: Uuid, name: string, more: seq<Uuid>)
    requires Dag.Valid(g1) && Dag.Valid(g2) && Dag.Valid(h) && a in g1.nodes && g2.edges == g1.edges
    requires Step(g1, g2, {a} + Dag.After(g1, a), [a]) && Dag.Binding(g2, scope, a, name).None?
    requires Step(g2, h, {a} + Dag.After(g2, a), more)
    requires forall v :: v in more ==> v == a || v in Dag.After(g2, a)
    ensures Step(g1, h, {a} + Dag.After(g1, a), [a] + more)
    ensures forall v :: v in [a] + more ==> v == a || v in Dag.After(g1, a)
    ensures Dag.Binding(h, scope, a, name).None?
  {
    assert Dag.After(g2, a) == Dag.After(g1, a);
    StepTrans(g1, g2, h, {a} + Dag.After(g1, a), {a} + Dag.After(g2, a), [a], more);
    BindingKept(g2, h, scope, a, name);
  }

  /** The state of the inner loop of `dagNodeDisconnected` on `a` after `i`
      inputs: only `a` and nodes after it changed, and they are reported,
      and the inputs handled draw from none of `up`. */
  ghost predicate InputsLoop(g0: Graph, h: Graph, scope: Variables.Scope, a: Uuid, ds: seq<Nodes.InputDecl>, i: int,
                             up: set<Uuid>, rank: map<Uuid, nat>, more: seq<Uuid>)
  {
    Ready(g0, scope, rank) && a in g0.nodes && ds == Nodes.InputDecls(g0.nodes[a].kind) && 0 <= i <= |ds| &&
    Ready(h, scope, rank) && Step(g0, h, {a} + Dag.After(g0, a), more) &&
    (forall v :: v in more ==> v == a || v in Dag.After(g0, a)) &&
    forall j :: 0 <= j < i ==> Detached(h, scope, a, ds[j].name, up)
  }

  /** The inner loop of `dagNodeDisconnected`, over the inputs of `a`. */
  method DisconnectInputs(dag: Dag.Dag, scope: Variables.Scope, a: Uuid, up: set<Uuid>, ghost rank: map<Uuid, nat>)
    returns (outcome: Result<()>, more: seq<Uuid>)
    requires Ready(dag.Value(), scope, rank) && a in dag.nodes
    modifies dag
    ensures Ready(dag.Value(), scope, rank)
    ensures Step(old(dag.Value()), dag.Value(), {a} + Dag.After(old(dag.Value()), a), more)
    ensures forall v :: v in more ==> v == a || v in Dag.After(old(dag.Value()), a)
    ensures outcome.Ok? ==>
      forall d :: d in Nodes.InputDecls(old(dag.nodes[a].kind)) ==> Detached(dag.Value(), scope, a, d.name, up)
  {
    ghost var g0 := dag.Value();
    var ds := Nodes.InputDecls(dag.nodes[a].kind);
    more := [];
    StepRefl(g0, {a} + Dag.After(g0, a));
    var i := 0;
    outcome := Ok(());
    while i < |ds| && outcome.Ok?
      invariant InputsLoop(g0, dag.Value(), scope, a, ds, i, up, rank, more)
      decreases |ds| - i, if outcome.Ok? then 1 else 0
    {
      ghost var g1 := dag.Value();
      var more';
      outcome, more' := DisconnectInput(dag, scope, a, ds[i], up, rank);
      InputsTurn(g0, g1, dag.Value(), scope, a, ds, i, up, rank, more, more', outcome.Ok?);
      more := more + more';
      if outcome.Ok? {
        i := i + 1;
      }
    }
    InputsExit(g0, dag.Value(), scope, a, ds, i, up, rank, more, outcome.Ok?);
  }

  /** One turn of the inner loop of `dagNodeDisconnected`, on input `ds[i]`. */
  lemma InputsTurn(g0: Graph, g1: Graph, h: Graph, scope: Variables.Scope, a: Uuid, ds: seq<Nodes.InputDecl>, i: int,
                   up: set<Uuid>, rank: map<Uuid, nat>, more: seq<Uuid>, more': seq<Uuid>, ok: bool)
    requires InputsLoop(g0, g1, scope, a, ds, i, up, rank, more) && i < |ds|
    requires Ready(h, scope, rank) && Step(g1, h, {a} + Dag.After(g1, a), more')
    requires forall v :: v in more' ==> v == a || v in Dag.After(g1, a)
    requires ok ==> Detached(h, scope, a, ds[i].name, up)
    ensures InputsLoop(g0, h, scope, a, ds, if ok then i + 1 else i, up, rank, more + more')
  {
    assert Dag.After(g1, a) == Dag.After(g0, a);
    StepTrans(g0, g1, h, {a} + Dag.After(g0, a), {a} + Dag.After(g1, a), more, more');
    forall j | 0 <= j < (if ok then i + 1 else i)
      ensures Detached(h, scope, a, ds[j].name, up)
    {
      if j < i {
        DetachedKept(g1, h, scope, a, ds[j].name, up);
      } else {
        assert j == i;
      }
    }
  }

  /** Leaving the inner loop of `dagNodeDisconnected`. */
  lemma InputsExit(g0: Graph, h: Graph, scope: Variables.Scope, a: Uuid, ds: seq<Nodes.InputDecl>, i: int,
                   up: set<Uuid>, rank: map<Uuid, nat>, more: seq<Uuid>, ok: bool)
    requires InputsLoop(g0, h, scope, a, ds, i, up, rank, more)
    requires ok ==> i == |ds|
    ensures ok ==> forall d :: d in ds ==> Detached(h, scope, a, d.name, up)
  {
    if ok {
      forall d | d in ds
        ensures Detached(h, scope, a, d.name, up)
      {
        var j :| 0 <= j < |ds| && ds[j] == d;
      }
    }
  }

  /** Every input of the nodes `done` draws from none of `up`. */
  ghost predicate AllDetached(h: Graph, scope: Variables.Scope, done: set<Uuid>, up: set<Uuid>)
    requires Dag.Valid(h) && done <= h.nodes.Keys
  {
    forall a, d :: a in done && d in Nodes.InputDecls(h.nodes[a].kind) ==> Detached(h, scope, a, d.name, up)
  }

  /** The state of the outer loop of `dagNodeDisconnected` once the nodes
      `done` after `u` are handled: only nodes after `u` changed, those in
      `changed`, and no input of the nodes `done` draws from `up`. */
  ghost predicate NodesLoop(g0: Graph, h: Graph, scope: Variables.Scope, u: Uuid, done: set<Uuid>, up: set<Uuid>,
                            rank: map<Uuid, nat>, changed: seq<Uuid>)
  {
    RecheckLoop(g0, h, scope, u, rank, changed) && done <= Dag.After(g0, u) && done <= h.nodes.Keys &&
    AllDetached(h, scope, done, up)
  }

  /** `dagNodeDisconnected(u)`: every input of every node after `u` whose
      source is `u` or a node before it is cleared, and its change
      propagated. Only nodes after `u` change; `u` comes first among the
      nodes reported, then every node that changed. When nothing raised,
      no input of a node after `u` draws from `u` or from a node before
      it. The nodes after `u` are visited in any order. */
  method NodeDisconnected(dag: Dag.Dag, scope: Variables.Scope, u: Uuid, ghost rank: map<Uuid, nat>)
    returns (outcome: Result<()>, affected: seq<Uuid>)
    requires Ready(dag.Value(), scope, rank) && u in dag.nodes
    modifies dag
    ensures Ready(dag.Value(), scope, rank)
    ensures Step(old(dag.Value()), dag.Value(), Dag.After(old(dag.Value()), u), affected)
    ensures |affected| > 0 && affected[0] == u
    ensures forall v :: v in affected ==> v == u || v in Dag.After(old(dag.Value()), u)
    ensures Dag.After(old(dag.Value()), u) <= dag.nodes.Keys
    ensures outcome.Ok? ==>
      AllDetached(dag.Value(), scope, Dag.After(old(dag.Value()), u), Dag.Before(old(dag.Value()), u) + {u})
  {
    ghost var g0 := dag.Value();
    Dag.AfterInGraph(g0, u);
    var after := Dag.AllNodesAfter(dag.Value(), u);
    var before := Dag.AllNodesBefore(dag.Value(), u);
    var up := before + {u};
    var rest := after;
    ghost var done: set<Uuid> := {};
    var changed := [];
    outcome := Ok(());
    StepRefl(g0, after);
    while rest != {} && outcome.Ok?
      invariant OuterLoop(g0, dag.Value(), scope, u, after, rest, done, up, rank, changed, outcome.Ok?)
      decreases rest
    {
      var a :| a in rest;
      var more;
      outcome, more, done := DisconnectNode(dag, scope, a, up, rank, g0, u, after, rest, done, changed);
      changed := changed + more;
      rest := rest - {a};
    }
    NodesExit(g0, dag.Value(), scope, u, after, rest, done, up, rank, changed, outcome.Ok?);
    affected := [u] + changed;
  }

  /** The body of the outer loop of `dagNodeDisconnected`, on the node `a`
      after `u`. */
  method DisconnectNode(dag: Dag.Dag, scope: Variables.Scope, a: Uuid, up: set<Uuid>, ghost rank: map<Uuid, nat>,
                        ghost g0: Graph, ghost u: Uuid, ghost after: set<Uuid>, ghost rest: set<Uuid>,
                        ghost done: set<Uuid>, ghost changed: seq<Uuid>)
    returns (outcome: Result<()>, more: seq<Uuid>, ghost done': set<Uuid>)
    requires OuterLoop(g0, dag.Value(), scope, u, after, rest, done, up, rank, changed, true) && a in rest
    modifies dag
    ensures OuterLoop(g0, dag.Value(), scope, u, after, rest - {a}, done', up, rank, changed + more, outcome.Ok?)
  {
    ghost var g1 := dag.Value();
    outcome, more := DisconnectInputs(dag, scope, a, up, rank);
    NodesTurn(g0, g1, dag.Value(), scope, u, done, a, up, rank, changed, more, outcome.Ok?);
    Closure.Moved(after, rest, done, a);
    done' := if outcome.Ok? then done + {a} else done;
  }

  /** The state of the outer loop of `dagNodeDisconnected` with the nodes
      `rest` of `after` still to visit. */
  ghost predicate OuterLoop(g0: Graph, h: Graph, scope: Variables.Scope, u: Uuid, after: set<Uuid>, rest: set<Uuid>,
                            done: set<Uuid>, up: set<Uuid>, rank: map<Uuid, nat>, changed: seq<Uuid>, ok: bool)
  {
    after == Dag.After(g0, u) && rest <= after && (ok ==> done == after - rest) &&
    NodesLoop(g0, h, scope, u, done, up, rank, changed)
  }

  /** One turn of the outer loop of `dagNodeDisconnected`, on the node `a`
      after `u`. */
  lemma NodesTurn(g0: Graph, g1: Graph, h: Graph, scope: Variables.Scope, u: Uuid, done: set<Uuid>, a: Uuid,
                  up: set<Uuid>, rank: map<Uuid, nat>, changed: seq<Uuid>, more: seq<Uuid>, ok: bool)
    requires NodesLoop(g0, g1, scope, u, done, up, rank, changed) && a in Dag.After(g0, u)
    requires Ready(h, scope, rank) && Step(g1, h, {a} + Dag.After(g1, a), more)
    requires forall v :: v in more ==> v == a || v in Dag.After(g1, a)
    requires a in g1.nodes
    requires ok ==> forall d :: d in Nodes.InputDecls(g1.nodes[a].kind) ==> Detached(h, scope, a, d.name, up)
    ensures NodesLoop(g0, h, scope, u, if ok then done + {a} else done, up, rank, changed + more)
  {
    RecheckTurn(g0, g1, h, scope, u, a, rank, changed, more);
    DetachedMore(g1, h, scope, done, a, up, ok);
  }

  /** The nodes handled stay detached while the next one is, and with it. */
  lemma DetachedMore(g1: Graph, h: Graph, scope: Variables.Scope, done: set<Uuid>, a: Uuid, up: set<Uuid>, ok: bool)
    requires Dag.Valid(g1) && Dag.Valid(h) && Evolves(g1, h) && done <= g1.nodes.Keys && a in g1.nodes
    requires AllDetached(g1, scope, done, up)
    requires ok ==> forall d :: d in Nodes.InputDecls(g1.nodes[a].kind) ==> Detached(h, scope, a, d.name, up)
    ensures done + {a} <= h.nodes.Keys
    ensures AllDetached(h, scope, if ok then done + {a} else done, up)
  {
    forall b, d | b in (if ok then done + {a} else done) && d in Nodes.InputDecls(h.nodes[b].kind)
      ensures Detached(h, scope, b, d.name, up)
    {
      assert NodeEvolves(g1.nodes[b], h.nodes[b]);
      if b in done {
        DetachedKept(g1, h, scope, b, d.name, up);
      }
    }
  }

  /** Leaving the outer loop of `dagNodeDisconnected`: `u` is reported
      before the nodes that changed. */
  lemma NodesExit(g0: Graph, h: Graph, scope: Variables.Scope, u: Uuid, after: set<Uuid>, rest: set<Uuid>,
                  done: set<Uuid>, up: set<Uuid>, rank: map<Uuid, nat>, changed: seq<Uuid>, ok: bool)
    requires OuterLoop(g0, h, scope, u, after, rest, done, up, rank, changed, ok) && (ok ==> rest == {})
    ensures Step(g0, h, Dag.After(g0, u), [u] + changed)
    ensures forall v :: v in [u] + changed ==> v == u || v in Dag.After(g0, u)
    ensures ok ==> Dag.After(g0, u) <= h.nodes.Keys && AllDetached(h, scope, Dag.After(g0, u), up)
  {
  }
}
