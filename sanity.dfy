/** The checks the main window runs before it builds a plan
    (`dagNodesSanityCheck`): the variables the nodes use exist, every node
    is connected to packets of the types it accepts and within their
    ranges, parallel nodes do not trim their inputs, outputs can be written
    and carry a range when they name frames, every node validates, and the
    groups hold only parallel nodes with one shared range and no node sits
    in two groups. The first violation raises; the check passes exactly
    when there is none. */
module Sanity {
  import opened Wrappers
  import PyText
  import Packets
  import Nodes
  import Variables
  import Frames
  import Util
  import Closure
  import Kinds
  import Dag
  import Usage

  type Uuid = Packets.Uuid
  type Graph = Dag.Graph
  type Node = Nodes.Node
  type Property = Nodes.Property

  /** A graph whose packets can be computed: well formed, bindings backed
      by edges, and ranked. */
  ghost predicate Packable(g: Graph, scope: Variables.Scope, rank: map<Uuid, nat>) {
    Dag.Valid(g) && Dag.BindingsOnEdges(g, scope) && Closure.IsRanking(rank, g.nodes.Keys, g.edges)
  }

  // ---------------------------------------------------------------------------
  // A loop that stops at the first failing element
  // ---------------------------------------------------------------------------

  /** Checking every element of `keys`, in any order, up to the first that
      fails; the error is that element's. */
  method FirstFailure<K(==)>(keys: set<K>, check: K -> Result<()>) returns (r: Result<()>)
    ensures r.Ok? <==> forall k :: k in keys ==> check(k).Ok?
    ensures r.Err? ==> exists k :: k in keys && check(k) == r
  {
    var rest := keys;
    r := Ok(());
    while rest != {} && r.Ok?
      invariant rest <= keys
      invariant r.Ok? ==> forall k :: k in keys - rest ==> check(k).Ok?
      invariant r.Err? ==> exists k :: k in keys && check(k) == r
      decreases rest, if r.Ok? then 1 else 0
    {
      var k :| k in rest;
      r := check(k);
      if r.Ok? {
        rest := rest - {k};
      }
    }
  }

  // ---------------------------------------------------------------------------
  // Variables
  // ---------------------------------------------------------------------------

  /** Every variable node `n` uses after `d` dollars is among `defined`, and
      the scan of the node does not raise. */
  ghost predicate VariablesDefined(n: Node, d: nat, defined: set<string>)
    requires d >= 1
  {
    !Usage.Unscannable(n) && forall x :: Usage.Uses(n, d, x) ==> x in defined
  }

  /** A node holding no `$` passes the variable checks against any set of
      names, as long as its scan does not raise. */
  lemma NoDollarDefined(n: Node, d: nat, defined: set<string>)
    requires d >= 1 && !Usage.Unscannable(n)
    requires forall key :: key in n.props ==> Usage.DollarFree(n.props[key])
    ensures VariablesDefined(n, d, defined)
  {
    forall x | Usage.Uses(n, d, x)
      ensures false
    {
      var key :| key in n.props && Usage.Mentions(n.props[key], d, x);
      Usage.NoDollarUnused(n.props[key], d, x);
    }
  }

  /** The first two loops of `dagNodesSanityCheck`: for each node, each name
      it uses after `d` dollars must be in `defined` (the workflow's
      variables for one dollar, the environment for two). */
  method CheckVariables(g: Graph, nodes: seq<Uuid>, d: nat, defined: set<string>) returns (r: Result<()>)
    requires d == 1 || d == 2
    requires forall i :: 0 <= i < |nodes| ==> nodes[i] in g.nodes
    ensures r.Ok? <==> forall i :: 0 <= i < |nodes| ==> VariablesDefined(g.nodes[nodes[i]], d, defined)
  {
    r := Ok(());
    var i := 0;
    while i < |nodes| && r.Ok?
      invariant 0 <= i <= |nodes|
      invariant r.Ok? ==> forall j :: 0 <= j < i ==> VariablesDefined(g.nodes[nodes[j]], d, defined)
      invariant r.Err? ==> i < |nodes| && !VariablesDefined(g.nodes[nodes[i]], d, defined)
      decreases |nodes| - i, if r.Ok? then 1 else 0
    {
      var n := g.nodes[nodes[i]];
      var used := Usage.VariablesUsed(n);
      if used.Err? {
        r := Err(used.reason);
      } else {
        var names := if d == 1 then used.value.0 else used.value.1;
        r := CheckNames(n.name, names, d, defined);
        if r.Ok? {
          i := i + 1;
        }
      }
    }
  }

  /** The loop over the names one node uses. */
  method CheckNames(nodeName: string, names: seq<string>, d: nat, defined: set<string>) returns (r: Result<()>)
    ensures r.Ok? <==> forall x :: x in names ==> x in defined
  {
    for i := 0 to |names|
      invariant forall j :: 0 <= j < i ==> names[j] in defined
    {
      if names[i] !in defined {
        if d == 1 {
          return Err("Depends variable $" + names[i] + " used in node '" + nodeName + "' does not exist in current environment.");
        }
        return Err("Environment variable $" + names[i] + " used in node '" + nodeName + "' does not exist in current environment.");
      }
    }
    r := Ok(());
  }

  // ---------------------------------------------------------------------------
  // One node
  // ---------------------------------------------------------------------------

  /** `(int(r[0]), int(r[1]))` of a stored range: a missing end raises
      `TypeError`, text that is not an integer `ValueError`. */
  function IntPair(ends: (Option<string>, Option<string>)): (r: Result<(int, int)>)
    ensures r.Ok? <==>
      ends.0.Some? && ends.1.Some? && PyText.ParseInt(ends.0.value).Some? && PyText.ParseInt(ends.1.value).Some?
    ensures r.Ok? ==> r.value == (PyText.ParseInt(ends.0.value).value, PyText.ParseInt(ends.1.value).value)
  {
    if ends.0.None? || ends.1.None? then Err("TypeError: int() argument must be a string or a number")
    else
      match (PyText.ParseInt(ends.0.value), PyText.ParseInt(ends.1.value))
      case (Some(lo), Some(hi)) => Ok((lo, hi))
      case _ => Err("ValueError: invalid literal for int()")
  }

  /** The packet coming into each input of node `u`, keyed as the input
      sits in the node's dictionary: nothing for an unbound input, an error
      where building the provider's packet raises. */
  function Incoming(g: Graph, scope: Variables.Scope, u: Uuid, ghost rank: map<Uuid, nat>): (m: map<string, Result<Option<Packets.Packet>>>)
    requires Packable(g, scope, rank) && u in g.nodes
    ensures forall key :: key in m <==> key in g.nodes[u].props && g.nodes[u].props[key].InputProp?
    ensures forall key :: key in m ==> m[key] == Dag.InputDataPacket(g, scope, u, g.nodes[u].props[key].name, rank)
  {
    map key | key in g.nodes[u].props && g.nodes[u].props[key].InputProp? ::
      Dag.InputDataPacket(g, scope, u, g.nodes[u].props[key].name, rank)
  }

  /** The packet arriving at an input is of a type the input accepts; an
      unbound input gets `None`, whose type it never accepts. */
  function TypeCheck(nodeName: string, p: Property, incoming: Result<Option<Packets.Packet>>): (r: Result<()>)
    ensures r.Ok? <==>
      !p.InputProp? || (incoming.Ok? && incoming.value.Some? && incoming.value.value.kind in Nodes.PossibleTypes(p.packetType))
  {
    if !p.InputProp? then Ok(())
    else
      var packet :- incoming;
      if packet.Some? && packet.value.kind in Nodes.PossibleTypes(p.packetType) then Ok(())
      else Err("Node '" + nodeName + "' has an incoming DataPacket that doesn't match its input's ('" + p.name + "') type.")
  }

  /** An input with a range lies within the range of the packet arriving at
      it. A missing end of the packet's range compares as Python 2 compares
      `None`: below every integer. */
  function BoundsCheck(nodeName: string, p: Property, incoming: Result<Option<Packets.Packet>>): (r: Result<()>)
    ensures r.Ok? <==>
      !p.InputProp? || p.seqRange.None? ||
      (IntPair(p.seqRange.value).Ok? && incoming.Ok? && incoming.value.Some? &&
       incoming.value.value.sequenceRange.Some? &&
       Within(IntPair(p.seqRange.value).value, incoming.value.value.sequenceRange.value))
  {
    if !p.InputProp? || p.seqRange.None? then Ok(())
    else
      var bounds :- IntPair(p.seqRange.value);
      var packet :- incoming;
      if packet.None? then Err("AttributeError: 'NoneType' object has no attribute 'sequenceRange'")
      else if packet.value.sequenceRange.None? then Err("TypeError: 'NoneType' object has no attribute '__getitem__'")
      else if !Within(bounds, packet.value.sequenceRange.value) then
        Err("Input range of node '" + nodeName + "' input '" + p.name + "' extends beyond the bounds of the output connected to it")
      else Ok(())
  }

  /** `not (lo < incoming[0] or hi > incoming[1])`, with `None` below every
      integer. */
  predicate Within(bounds: (int, int), incoming: (Option<int>, Option<int>)) {
    (incoming.0.None? || bounds.0 >= incoming.0.value) && incoming.1.Some? && bounds.1 <= incoming.1.value
  }

  /** A parallel node's input with a range has the same range as the output
      it affects. An input affecting no output, or an output without a
      range, makes the check raise. */
  function ParallelCheck(n: Node, p: Property): (r: Result<()>)
    requires Nodes.Wf(n)
    ensures r.Ok? <==>
      !Nodes.IsEmbarrassinglyParallel(n.kind) || !p.InputProp? || p.seqRange.None? ||
      (IntPair(p.seqRange.value).Ok? && AffectedRange(n, p).Ok? && AffectedRange(n, p).value == IntPair(p.seqRange.value).value)
  {
    if !Nodes.IsEmbarrassinglyParallel(n.kind) || !p.InputProp? || p.seqRange.None? then Ok(())
    else
      var inputRange :- IntPair(p.seqRange.value);
      var outputRange :- AffectedRange(n, p);
      if inputRange != outputRange then
        Err("The parallel node, '" + n.name + "', is trimming its inputs a bit.  This is currently a no-no")
      else Ok(())
  }

  /** The integer range of the output an input affects, as
      `outputAffectedByInput(input).getSeqRange()` reads it. */
  function AffectedRange(n: Node, p: Property): (r: Result<(int, int)>)
    requires Nodes.Wf(n) && p.InputProp?
  {
    match Nodes.OutputAffectedByInput(n.kind, Nodes.InputDecl(p.name, p.packetType, p.required))
    case None => Err("AttributeError: 'NoneType' object has no attribute 'getSeqRange'")
    case Some(o) =>
      var out :- Nodes.OutputNamed(n, o.name);
      match Nodes.GetSeqRange(out.seqRange)
      case None => Err("TypeError: 'NoneType' object has no attribute '__getitem__'")
      case Some(ends) => IntPair(ends)
  }

  /** The directory `os.path.dirname` gives for a path. */
  function Dirname(path: string): string {
    Util.PathSplit(path).0
  }

  /** An output's files can be written: each non-empty file's directory
      exists and is writable, and a file naming frames comes with a range.
      Checked in that order, each over all the files. */
  function OutputCheck(nodeName: string, p: Property, pathExists: string -> bool, writable: string -> bool): (r: Result<()>)
    ensures r.Ok? <==>
      !p.OutputProp? ||
      (DirsPass(p.files, pathExists) && DirsPass(p.files, writable) &&
       (FramesNamed(p.files) ==> Nodes.GetSeqRange(p.seqRange).Some?))
  {
    if !p.OutputProp? then Ok(())
    else if !DirsPass(p.files, pathExists) then
      Err("Node '" + nodeName + "' will attempt to write to a directory that doesn't exist.")
    else if !DirsPass(p.files, writable) then
      Err("Node '" + nodeName + "' will attempt to write to a directory that you don't have permissions to.")
    else if FramesNamed(p.files) && Nodes.GetSeqRange(p.seqRange).None? then
      Err("Node '" + nodeName + "' output '" + p.name + "' has a string with frame symbols, but has no sequence range defined.")
    else Ok(())
  }

  /** The directory of every non-empty file passes `test`. */
  predicate DirsPass(files: map<string, string>, test: string -> bool) {
    forall k :: k in files && files[k] != "" ==> test(Dirname(files[k]))
  }

  /** Some file names frames. */
  predicate FramesNamed(files: map<string, string>) {
    exists k :: k in files && Frames.HasFrameSymbols(files[k])
  }

  // ---------------------------------------------------------------------------
  // Connected inputs (`nodeAllInputsConnected`)
  // ---------------------------------------------------------------------------

  /** The node an input is bound to, unless that is the node itself, whose
      own packets `nodeOrderedDataPackets` skips. */
  function InputSource(g: Graph, scope: Variables.Scope, u: Uuid, name: string): Option<Uuid>
    requires Dag.Valid(g) && u in g.nodes
  {
    match Dag.Binding(g, scope, u, name)
    case None => None
    case Some((p, _)) => if p != u then Some(p) else None
  }

  /** Input `i` is bound, and no later input is bound to the same node: the
      input that `nodeOrderedDataPackets` pairs with that node's packets. */
  ghost predicate LastBound(g: Graph, scope: Variables.Scope, u: Uuid, decls: seq<Nodes.InputDecl>, i: int)
    requires Dag.Valid(g) && u in g.nodes && 0 <= i < |decls|
  {
    InputSource(g, scope, u, decls[i].name).Some? &&
    forall j :: i < j < |decls| ==> InputSource(g, scope, u, decls[j].name) != InputSource(g, scope, u, decls[i].name)
  }

  /** The inputs of the (input, packet) pairs `nodeOrderedDataPackets`
      returns: a bound node always hands packets (it has the output the input
      names), and each of its packets is paired with the last input bound to
      it, so an input sharing its node with a later input is not among them. */
  function Supplied(g: Graph, scope: Variables.Scope, u: Uuid, decls: seq<Nodes.InputDecl>): seq<string>
    requires Dag.Valid(g) && u in g.nodes
    decreases |decls|
  {
    if decls == [] then []
    else
      var rest := Supplied(g, scope, u, decls[1..]);
      var src := InputSource(g, scope, u, decls[0].name);
      if src.Some? && forall j :: 0 <= j < |decls[1..]| ==> InputSource(g, scope, u, decls[1..][j].name) != src
      then [decls[0].name] + rest
      else rest
  }

  /** The inputs `Supplied` lists are exactly the last-bound ones. */
  lemma {:induction false} SuppliedExactly(g: Graph, scope: Variables.Scope, u: Uuid, decls: seq<Nodes.InputDecl>)
    requires Dag.Valid(g) && u in g.nodes
    ensures forall i :: 0 <= i < |decls| && LastBound(g, scope, u, decls, i) ==> decls[i].name in Supplied(g, scope, u, decls)
    ensures forall x :: x in Supplied(g, scope, u, decls) ==>
      exists i :: 0 <= i < |decls| && decls[i].name == x && LastBound(g, scope, u, decls, i)
    decreases |decls|
  {
    if decls != [] {
      SuppliedExactly(g, scope, u, decls[1..]);
      LastBoundTail(g, scope, u, decls);
      var r := Supplied(g, scope, u, decls);
      forall x | x in r
        ensures exists i :: 0 <= i < |decls| && decls[i].name == x && LastBound(g, scope, u, decls, i)
      {
        if x in Supplied(g, scope, u, decls[1..]) {
          var k :| 0 <= k < |decls[1..]| && decls[1..][k].name == x && LastBound(g, scope, u, decls[1..], k);
          assert decls[k + 1] == decls[1..][k];
          assert LastBound(g, scope, u, decls, k + 1);
        } else {
          assert x == decls[0].name && LastBound(g, scope, u, decls, 0);
        }
      }
      forall i | 0 <= i < |decls| && LastBound(g, scope, u, decls, i)
        ensures decls[i].name in r
      {
        if i > 0 {
          assert decls[1..][i - 1] == decls[i];
          assert LastBound(g, scope, u, decls[1..], i - 1);
        }
      }
    }
  }

  /** Dropping the first input shifts `LastBound` by one place. */
  lemma LastBoundTail(g: Graph, scope: Variables.Scope, u: Uuid, decls: seq<Nodes.InputDecl>)
    requires Dag.Valid(g) && u in g.nodes && decls != []
    ensures forall i :: 1 <= i < |decls| ==> (LastBound(g, scope, u, decls, i) <==> LastBound(g, scope, u, decls[1..], i - 1))
    ensures LastBound(g, scope, u, decls, 0) <==>
      InputSource(g, scope, u, decls[0].name).Some? &&
      forall j :: 0 <= j < |decls[1..]| ==> InputSource(g, scope, u, decls[1..][j].name) != InputSource(g, scope, u, decls[0].name)
  {
    forall i | 1 <= i < |decls|
      ensures LastBound(g, scope, u, decls, i) <==> LastBound(g, scope, u, decls[1..], i - 1)
    {
      assert forall j :: i - 1 < j < |decls[1..]| ==> decls[1..][j] == decls[j + 1];
    }
    assert forall j :: 0 <= j < |decls[1..]| ==> decls[1..][j] == decls[j + 1];
  }

  /** `nodeAllInputsConnected`: the inputs paired with packets cover every input. */
  predicate AllInputsConnected(g: Graph, scope: Variables.Scope, u: Uuid)
    requires Dag.Valid(g) && u in g.nodes
  {
    Nodes.InputRequirementsFulfilled(g.nodes[u].kind, Supplied(g, scope, u, Nodes.InputDecls(g.nodes[u].kind)))
  }

  /** A node passes the connection stage exactly when each of its inputs is
      bound to another node and no two of its inputs are bound to the same
      node. */
  lemma ConnectedExactly(g: Graph, scope: Variables.Scope, u: Uuid)
    requires Dag.Valid(g) && u in g.nodes
    ensures var decls := Nodes.InputDecls(g.nodes[u].kind);
      AllInputsConnected(g, scope, u) <==>
      (forall i :: 0 <= i < |decls| ==> InputSource(g, scope, u, decls[i].name).Some?) &&
      (forall i, j :: 0 <= i < j < |decls| ==> InputSource(g, scope, u, decls[i].name) != InputSource(g, scope, u, decls[j].name))
  {
    var decls := Nodes.InputDecls(g.nodes[u].kind);
    InputNamesDistinct(g.nodes[u].kind);
    SuppliedAll(g, scope, u, decls);
    var r := Supplied(g, scope, u, decls);
    assert AllInputsConnected(g, scope, u) <==> forall i :: 0 <= i < |decls| ==> decls[i].name in r;
  }

  /** No two declarations share a name. */
  predicate DistinctNames(decls: seq<Nodes.InputDecl>) {
    forall i, j :: 0 <= i < j < |decls| ==> decls[i].name != decls[j].name
  }

  /** `inputRequirementsFulfilled(nodeOrderedDataPackets(n))` holds exactly
      when every input is bound to some other node and no two inputs are
      bound to the same node. */
  lemma {:induction false} SuppliedAll(g: Graph, scope: Variables.Scope, u: Uuid, decls: seq<Nodes.InputDecl>)
    requires Dag.Valid(g) && u in g.nodes && DistinctNames(decls)
    ensures (forall i :: 0 <= i < |decls| ==> decls[i].name in Supplied(g, scope, u, decls)) <==>
      (forall i :: 0 <= i < |decls| ==> InputSource(g, scope, u, decls[i].name).Some?) &&
      (forall i, j :: 0 <= i < j < |decls| ==> InputSource(g, scope, u, decls[i].name) != InputSource(g, scope, u, decls[j].name))
  {
    var r := Supplied(g, scope, u, decls);
    SuppliedExactly(g, scope, u, decls);
    if forall i :: 0 <= i < |decls| ==> decls[i].name in r {
      forall i | 0 <= i < |decls|
        ensures LastBound(g, scope, u, decls, i)
      {
        var k :| 0 <= k < |decls| && decls[k].name == decls[i].name && LastBound(g, scope, u, decls, k);
        assert k == i;
      }
    }
  }

  /** The input lists of every kind carry distinct names. */
  lemma InputNamesDistinct(k: Nodes.Kind)
    ensures DistinctNames(Nodes.InputDecls(k))
  {
  }

  /** What the outside world tells the check: which paths exist, which
      directories can be written, and which files are on disk. */
  datatype World = World(
    pathExists: string -> bool,
    writable: string -> bool,
    fileExists: string -> bool)

  /** Node `u` passes the individual checks. */
  ghost predicate NodeSane(g: Graph, scope: Variables.Scope, u: Uuid, rank: map<Uuid, nat>, w: World)
    requires Packable(g, scope, rank) && u in g.nodes
  {
    var n := g.nodes[u];
    var incoming := Incoming(g, scope, u, rank);
    AllInputsConnected(g, scope, u) &&
    (forall key :: key in incoming ==> TypeCheck(n.name, n.props[key], incoming[key]).Ok?) &&
    (forall key :: key in incoming ==> BoundsCheck(n.name, n.props[key], incoming[key]).Ok?) &&
    (forall key :: key in n.props ==> ParallelCheck(n, n.props[key]).Ok?) &&
    (forall key :: key in n.props ==> OutputCheck(n.name, n.props[key], w.pathExists, w.writable).Ok?) &&
    Kinds.Validate(n, scope, w.fileExists).Ok?
  }

  /** The individual checks of one node, in the source's order: its inputs
      are connected, then every input's type, every input's range, the
      parallel trimming rule, every output, and the kind's validation. */
  method CheckNode(g: Graph, scope: Variables.Scope, u: Uuid, ghost rank: map<Uuid, nat>, w: World) returns (r: Result<()>)
    requires Packable(g, scope, rank) && u in g.nodes
    ensures r.Ok? <==> NodeSane(g, scope, u, rank, w)
  {
    var n := g.nodes[u];
    if !AllInputsConnected(g, scope, u) {
      return Err("Node '" + n.name + "' is missing a required input.");
    }
    var incoming := Incoming(g, scope, u, rank);
    r := FirstFailure(incoming.Keys, key => if key in incoming && key in n.props then TypeCheck(n.name, n.props[key], incoming[key]) else Ok(()));
    if r.Err? {
      return;
    }
    r := FirstFailure(incoming.Keys, key => if key in incoming && key in n.props then BoundsCheck(n.name, n.props[key], incoming[key]) else Ok(()));
    if r.Err? {
      return;
    }
    r := FirstFailure(n.props.Keys, key => if key in n.props then ParallelCheck(n, n.props[key]) else Ok(()));
    if r.Err? {
      return;
    }
    r := FirstFailure(n.props.Keys, key => if key in n.props then OutputCheck(n.name, n.props[key], w.pathExists, w.writable) else Ok(()));
    if r.Err? {
      return;
    }
    var valid := Kinds.Validate(n, scope, w.fileExists);
    if valid.Err? {
      return Err("Dag node '" + n.name + "' did not pass its validation test with the error:\n" + valid.reason);
    }
    r := Ok(());
  }

  // ---------------------------------------------------------------------------
  // Groups
  // ---------------------------------------------------------------------------

  /** The members of every group, paired with the group's name. Members no
      longer in the graph are skipped. */
  function GroupMembers(g: Graph): (r: set<(string, Uuid)>)
    ensures forall name, u :: (name, u) in r <==> name in g.groups && u in g.groups[name] && u in g.nodes
  {
    set name, u | name in g.groups && u in g.groups[name] && u in g.nodes :: (name, u)
  }

  /** Every member of every group is embarrassingly parallel. */
  ghost predicate GroupsParallel(g: Graph) {
    forall name, u :: name in g.groups && u in g.groups[name] && u in g.nodes ==>
      Nodes.IsEmbarrassinglyParallel(g.nodes[u].kind)
  }

  /** The first group loop of `dagNodesSanityCheck`: the members of every
      group are embarrassingly parallel. */
  method CheckGroupsParallel(g: Graph) returns (r: Result<()>)
    ensures r.Ok? <==> GroupsParallel(g)
  {
    var members := GroupMembers(g);
    r := FirstFailure(members, (m: (string, Uuid)) =>
      if m.1 in g.nodes && !Nodes.IsEmbarrassinglyParallel(g.nodes[m.1].kind) then
        Err("Node '" + g.nodes[m.1].name + "' in group '" + m.0 + "' is not embarrassingly parallel.")
      else Ok(()));
    if r.Ok? {
      forall name, u | name in g.groups && u in g.groups[name] && u in g.nodes
        ensures Nodes.IsEmbarrassinglyParallel(g.nodes[u].kind)
      {
        assert (name, u) in members;
      }
    }
  }

  /** The outputs of the members of a group, as (node, key) pairs. */
  function GroupOutputs(g: Graph, members: set<Uuid>): (r: set<(Uuid, string)>)
    ensures forall u, key :: (u, key) in r <==>
      u in members && u in g.nodes && key in g.nodes[u].props && g.nodes[u].props[key].OutputProp?
  {
    set u, key | u in members && u in g.nodes && key in g.nodes[u].props && g.nodes[u].props[key].OutputProp? :: (u, key)
  }

  /** `(int(o.getSeqRange()[0]), int(o.getSeqRange()[1]))` of an output: an
      output without a range raises `TypeError`. */
  function OutputPair(p: Property): (r: Result<(int, int)>)
    ensures r.Ok? <==> Nodes.GetSeqRange(p.seqRange).Some? && IntPair(p.seqRange.value).Ok?
    ensures r.Ok? ==> r == IntPair(p.seqRange.value)
  {
    match Nodes.GetSeqRange(p.seqRange)
    case None => Err("TypeError: 'NoneType' object has no attribute '__getitem__'")
    case Some(ends) => IntPair(ends)
  }

  /** Every output of the group reads as one and the same integer range. */
  ghost predicate RangesAgree(g: Graph, members: set<Uuid>) {
    exists bounds: (int, int) :: RangesWitness(g, members, bounds)
  }

  /** Every output of the group reads as `bounds`. */
  ghost predicate RangesWitness(g: Graph, members: set<Uuid>, bounds: (int, int)) {
    forall o :: o in GroupOutputs(g, members) ==> OutputPair(g.nodes[o.0].props[o.1]) == Ok(bounds)
  }

  /** Two outputs of a group that do not read as the same range, or one
      that does not read as a range at all, break the agreement. */
  lemma Disagree(g: Graph, members: set<Uuid>, a: (Uuid, string), b: (Uuid, string))
    requires a in GroupOutputs(g, members) && b in GroupOutputs(g, members)
    requires OutputPair(g.nodes[a.0].props[a.1]).Err? || OutputPair(g.nodes[a.0].props[a.1]) != OutputPair(g.nodes[b.0].props[b.1])
    ensures !RangesAgree(g, members)
  {
    forall bounds: (int, int)
      ensures !RangesWitness(g, members, bounds)
    {
      if OutputPair(g.nodes[a.0].props[a.1]) != Ok(bounds) {
        assert a in GroupOutputs(g, members);
      } else {
        assert b in GroupOutputs(g, members);
      }
    }
  }

  /** Every item reads as `bounds`. */
  ghost predicate AllReadAs<T>(items: set<T>, read: T -> Result<(int, int)>, bounds: (int, int)) {
    forall o :: o in items ==> read(o) == Ok(bounds)
  }

  /** The loop over one group's outputs, for any reading of an output: the
      first output with a range sets the group's range, and every later
      output must read as the same range. */
  method AgreeOn<T>(items: set<T>, read: T -> Result<(int, int)>, hasRange: T -> bool, mismatch: T -> string)
    returns (r: Result<()>)
    requires forall o :: o in items && read(o).Ok? ==> hasRange(o)
    ensures r.Ok? <==> exists bounds :: AllReadAs(items, read, bounds)
  {
    var rest := items;
    var bounds: Option<(int, int)> := None;
    r := Ok(());
    while rest != {} && r.Ok?
      invariant rest <= items
      invariant r.Ok? ==> (bounds.None? <==> rest == items)
      invariant r.Ok? && bounds.Some? ==> forall o :: o in items - rest ==> read(o) == Ok(bounds.value)
      invariant r.Err? ==> forall b :: !AllReadAs(items, read, b)
      decreases rest, if r.Ok? then 1 else 0
    {
      var o :| o in rest;
      var pair := read(o);
      if pair.Err? {
        r := Err(pair.reason);
      } else if bounds.None? && hasRange(o) {
        bounds := Some(pair.value);
        rest := rest - {o};
      } else if pair.value != bounds.value {
        assert rest != items;
        ghost var a :| a in items && a !in rest;
        assert read(a) == Ok(bounds.value) && read(o) != Ok(bounds.value);
        assert forall b :: AllReadAs(items, read, b) ==> read(a) == Ok(b) && read(o) == Ok(b);
        r := Err(mismatch(o));
      } else {
        rest := rest - {o};
      }
    }
    if r.Ok? {
      var agreed := if bounds.Some? then bounds.value else (0, 0);
      forall o | o in items
        ensures read(o) == Ok(agreed)
      {
        assert o in items - rest;
      }
      assert AllReadAs(items, read, agreed);
    }
  }

  /** The loop over one group's outputs in the second group loop: the group
      passes exactly when all its outputs read as one integer range. */
  method CheckGroupRanges(g: Graph, name: string, members: set<Uuid>) returns (r: Result<()>)
    ensures r.Ok? <==> RangesAgree(g, members)
  {
    var outputs := GroupOutputs(g, members);
    var read := (o: (Uuid, string)) =>
      if o.0 in g.nodes && o.1 in g.nodes[o.0].props then OutputPair(g.nodes[o.0].props[o.1]) else Err("");
    var hasRange := (o: (Uuid, string)) =>
      o.0 in g.nodes && o.1 in g.nodes[o.0].props && Nodes.GetSeqRange(g.nodes[o.0].props[o.1].seqRange).Some?;
    var mismatch := (o: (Uuid, string)) =>
      "Sequence ranges in group '" + name + "' do not match.  Detection occurred on node '" +
      (if o.0 in g.nodes then g.nodes[o.0].name else "") + "'.";
    r := AgreeOn(outputs, read, hasRange, mismatch);
    forall b: (int, int)
      ensures RangesWitness(g, members, b) <==> AllReadAs(outputs, read, b)
    {
    }
  }

  /** The second group loop of `dagNodesSanityCheck`: within every group,
      the outputs agree on one range. */
  method CheckAllGroupRanges(g: Graph) returns (r: Result<()>)
    ensures r.Ok? <==> forall name :: name in g.groups ==> RangesAgree(g, g.groups[name])
  {
    var rest := g.groups.Keys;
    r := Ok(());
    while rest != {} && r.Ok?
      invariant rest <= g.groups.Keys
      invariant r.Ok? ==> forall name :: name in g.groups.Keys - rest ==> RangesAgree(g, g.groups[name])
      invariant r.Err? ==> exists name :: name in g.groups && !RangesAgree(g, g.groups[name])
      decreases rest, if r.Ok? then 1 else 0
    {
      var name :| name in rest;
      r := CheckGroupRanges(g, name, g.groups[name]);
      if r.Ok? {
        rest := rest - {name};
      }
    }
  }

  /** The last loop of `dagNodesSanityCheck`: no node sits in two groups. */
  method CheckSingleGroup(g: Graph, nodes: seq<Uuid>) returns (r: Result<()>)
    requires forall i :: 0 <= i < |nodes| ==> nodes[i] in g.nodes
    ensures r.Ok? <==> forall i :: 0 <= i < |nodes| ==> Dag.GroupCount(g, nodes[i]) <= 1
  {
    for i := 0 to |nodes|
      invariant forall j :: 0 <= j < i ==> Dag.GroupCount(g, nodes[j]) <= 1
    {
      if Dag.GroupCount(g, nodes[i]) > 1 {
        return Err("Node '" + g.nodes[nodes[i]].name + "' is present in multiple groups.");
      }
    }
    r := Ok(());
  }

  // ---------------------------------------------------------------------------
  // The whole check
  // ---------------------------------------------------------------------------

  /** The nodes, and the groups of the graph, pass every check. */
  ghost predicate Sane(g: Graph, scope: Variables.Scope, nodes: seq<Uuid>, rank: map<Uuid, nat>, w: World)
    requires Packable(g, scope, rank)
    requires forall i :: 0 <= i < |nodes| ==> nodes[i] in g.nodes
  {
    (forall i :: 0 <= i < |nodes| ==> VariablesDefined(g.nodes[nodes[i]], 1, scope.vars.Keys)) &&
    (forall i :: 0 <= i < |nodes| ==> VariablesDefined(g.nodes[nodes[i]], 2, scope.environ.Keys)) &&
    NodesSane(g, scope, nodes, |nodes|, rank, w) &&
    GroupsParallel(g) &&
    (forall name :: name in g.groups ==> RangesAgree(g, g.groups[name])) &&
    (forall i :: 0 <= i < |nodes| ==> Dag.GroupCount(g, nodes[i]) <= 1)
  }

  /** `dagNodesSanityCheck(nodes)`: the stages in the source's order, each
      raising at its first violation; it passes exactly when the nodes and
      the groups are sane. */
  method SanityCheck(g: Graph, scope: Variables.Scope, nodes: seq<Uuid>, ghost rank: map<Uuid, nat>, w: World) returns (r: Result<()>)
    requires Packable(g, scope, rank)
    requires forall i :: 0 <= i < |nodes| ==> nodes[i] in g.nodes
    ensures r.Ok? <==> Sane(g, scope, nodes, rank, w)
  {
    r := CheckVariables(g, nodes, 1, scope.vars.Keys);
    if r.Err? {
      return;
    }
    r := CheckVariables(g, nodes, 2, scope.environ.Keys);
    if r.Err? {
      return;
    }
    r := CheckNodes(g, scope, nodes, rank, w);
    if r.Err? {
      return;
    }
    r := CheckGroupsParallel(g);
    if r.Err? {
      return;
    }
    r := CheckAllGroupRanges(g);
    if r.Err? {
      return;
    }
    r := CheckSingleGroup(g, nodes);
  }

  /** The loop running the individual checks over the nodes in order. */
  method CheckNodes(g: Graph, scope: Variables.Scope, nodes: seq<Uuid>, ghost rank: map<Uuid, nat>, w: World) returns (r: Result<()>)
    requires Packable(g, scope, rank)
    requires forall i :: 0 <= i < |nodes| ==> nodes[i] in g.nodes
    ensures r.Ok? <==> NodesSane(g, scope, nodes, |nodes|, rank, w)
  {
    r := Ok(());
    var i := 0;
    while i < |nodes| && r.Ok?
      invariant 0 <= i <= |nodes|
      invariant r.Ok? ==> NodesSane(g, scope, nodes, i, rank, w)
      invariant r.Err? ==> i < |nodes| && !NodeSane(g, scope, nodes[i], rank, w)
      decreases |nodes| - i, if r.Ok? then 1 else 0
    {
      r := CheckNode(g, scope, nodes[i], rank, w);
      if r.Ok? {
        NodesSaneMore(g, scope, nodes, i, rank, w);
        i := i + 1;
      }
    }
    if r.Err? {
      NodesSaneBreaks(g, scope, nodes, i, |nodes|, rank, w);
    }
  }

  /** The first `i` nodes pass the individual checks. */
  ghost predicate NodesSane(g: Graph, scope: Variables.Scope, nodes: seq<Uuid>, i: nat, rank: map<Uuid, nat>, w: World)
    requires Packable(g, scope, rank)
    requires forall j :: 0 <= j < |nodes| ==> nodes[j] in g.nodes
    requires i <= |nodes|
  {
    i == 0 || (NodesSane(g, scope, nodes, i - 1, rank, w) && NodeSane(g, scope, nodes[i - 1], rank, w))
  }

  lemma NodesSaneMore(g: Graph, scope: Variables.Scope, nodes: seq<Uuid>, i: nat, rank: map<Uuid, nat>, w: World)
    requires Packable(g, scope, rank)
    requires forall j :: 0 <= j < |nodes| ==> nodes[j] in g.nodes
    requires i < |nodes|
    requires NodesSane(g, scope, nodes, i, rank, w) && NodeSane(g, scope, nodes[i], rank, w)
    ensures NodesSane(g, scope, nodes, i + 1, rank, w)
  {
  }

  /** A node failing its checks fails every longer prefix holding it. */
  lemma NodesSaneBreaks(g: Graph, scope: Variables.Scope, nodes: seq<Uuid>, j: nat, i: nat, rank: map<Uuid, nat>, w: World)
    requires Packable(g, scope, rank)
    requires forall k :: 0 <= k < |nodes| ==> nodes[k] in g.nodes
    requires j < i <= |nodes| && !NodeSane(g, scope, nodes[j], rank, w)
    ensures !NodesSane(g, scope, nodes, i, rank, w)
  {
    if NodesSane(g, scope, nodes, i, rank, w) {
      NodesSaneAt(g, scope, nodes, j, i, rank, w);
    }
  }

  /** Each node of a prefix that passes passes its own checks. */
  lemma {:induction false} NodesSaneAt(g: Graph, scope: Variables.Scope, nodes: seq<Uuid>, j: nat, i: nat, rank: map<Uuid, nat>, w: World)
    requires Packable(g, scope, rank)
    requires forall k :: 0 <= k < |nodes| ==> nodes[k] in g.nodes
    requires j < i <= |nodes| && NodesSane(g, scope, nodes, i, rank, w)
    ensures NodeSane(g, scope, nodes[j], rank, w)
    decreases i
  {
    if j < i - 1 {
      NodesSaneAt(g, scope, nodes, j, i - 1, rank, w);
    }
  }
}
