/** The execution plan `dagExecuteNode` hands to the output recipe: the
    nodes the target needs, in dependency order, each contributing its
    command list (with pre- and post-execution hooks around it), after
    which the command lists of every group are interleaved round-robin and
    put in place of the group's entries, labelled with the group's name.
    Also the guard of `groupSelectedNodes`. Writing the script and running
    it belong to the recipe and are not part of this model. */
module Plan {
  import opened Wrappers
  import Packets
  import Nodes
  import Variables
  import Util
  import Closure
  import Kinds
  import Dag
  import Sanity

  type Uuid = Packets.Uuid
  type Graph = Dag.Graph
  type Node = Nodes.Node
  type Item = Kinds.Item

  /** What an entry of the plan runs: a whole command list as a node
      produced it (`None` where `executeList` returned `None`), or one item
      of an interleaved group. */
  datatype Commands = Batch(list: Option<seq<Item>>) | Single(item: Item)

  /** One `(label, commands)` pair of the execution list. */
  datatype Entry = Entry(name: string, commands: Commands)

  // ---------------------------------------------------------------------------
  // The entries of the nodes
  // ---------------------------------------------------------------------------

  /** `executeList` of node `u`, split per frame exactly when the node sits
      in a group. `packets` stands for the packet dictionary the scene
      graph builds for each node. */
  function NodeCommands(g: Graph, scope: Variables.Scope, u: Uuid, packets: Uuid -> map<string, Packets.Packet>,
                        scaleText: string -> Result<string>): (r: Result<Option<seq<Item>>>)
    requires Dag.Valid(g) && u in g.nodes
    ensures g.nodes[u].kind == Nodes.LightfieldRasterize ==> r.Err?
  {
    Kinds.ExecuteList(g.nodes[u], packets(u), Dag.GroupCount(g, u) > 0, scope, scaleText)
  }

  /** The entries one node contributes: its pre-execution hook when there
      is one, its commands, its post-execution hook when there is one. */
  function NodeEntries(n: Node, commands: Option<seq<Item>>): seq<Entry> {
    var pre := Kinds.PreProcess(n.kind);
    var post := Kinds.PostProcess(n.kind);
    (if pre != [] then [Entry(n.name + " [Pre-execution]", Batch(Some(Kinds.Args(pre))))] else []) +
    [Entry(n.name, Batch(commands))] +
    (if post != [] then [Entry(n.name + " [Post-execution]", Batch(Some(Kinds.Args(post))))] else [])
  }

  /** The outcome of `executeList` for each node of the order. */
  function Outcomes(g: Graph, scope: Variables.Scope, order: seq<Uuid>, packets: Uuid -> map<string, Packets.Packet>,
                    scaleText: string -> Result<string>): (rs: seq<Result<Option<seq<Item>>>>)
    requires Dag.Valid(g) && forall i :: 0 <= i < |order| ==> order[i] in g.nodes
    ensures |rs| == |order|
    ensures forall i :: 0 <= i < |order| ==> rs[i] == NodeCommands(g, scope, order[i], packets, scaleText)
  {
    seq(|order|, i requires 0 <= i < |order| => NodeCommands(g, scope, order[i], packets, scaleText))
  }

  /** The nodes of the order. */
  function NodesOf(g: Graph, order: seq<Uuid>): (ns: seq<Node>)
    requires forall i :: 0 <= i < |order| ==> order[i] in g.nodes
    ensures |ns| == |order| && forall i :: 0 <= i < |order| ==> ns[i] == g.nodes[order[i]]
  {
    seq(|order|, i requires 0 <= i < |order| => g.nodes[order[i]])
  }

  /** The execution list before interleaving, from the nodes and the
      outcomes of their `executeList`: their entries in order, or the error
      of the first that raised. */
  function Entries(ns: seq<Node>, outcomes: seq<Result<Option<seq<Item>>>>): (r: Result<seq<Entry>>)
    requires |ns| == |outcomes|
    decreases |ns|
  {
    if ns == [] then Ok([])
    else
      var commands :- outcomes[0];
      var rest :- Entries(ns[1..], outcomes[1..]);
      Ok(NodeEntries(ns[0], commands) + rest)
  }

  /** The list fails exactly when some node's `executeList` raised. */
  lemma {:induction false} EntriesFail(ns: seq<Node>, outcomes: seq<Result<Option<seq<Item>>>>)
    requires |ns| == |outcomes|
    ensures Entries(ns, outcomes).Err? <==> exists i :: 0 <= i < |outcomes| && outcomes[i].Err?
    decreases |ns|
  {
    if ns != [] {
      EntriesFail(ns[1..], outcomes[1..]);
      if exists i :: 0 <= i < |outcomes| && outcomes[i].Err? {
        var i :| 0 <= i < |outcomes| && outcomes[i].Err?;
        if i > 0 {
          assert outcomes[1..][i - 1].Err?;
        }
      }
      if exists i :: 0 <= i < |outcomes| - 1 && outcomes[1..][i].Err? {
        var i :| 0 <= i < |outcomes| - 1 && outcomes[1..][i].Err?;
        assert outcomes[i + 1].Err?;
      }
    }
  }

  /** No kind has a pre-execution hook, and the one kind with a
      post-execution hook always raises in `executeList`: each node then
      contributes exactly one entry, its own, in order. This is what lets
      the group positions found in the node order serve as positions in the
      execution list. */
  lemma {:induction false} OneEntryPerNode(ns: seq<Node>, outcomes: seq<Result<Option<seq<Item>>>>)
    requires |ns| == |outcomes|
    requires forall i :: 0 <= i < |ns| && ns[i].kind == Nodes.LightfieldRasterize ==> outcomes[i].Err?
    requires Entries(ns, outcomes).Ok?
    ensures var entries := Entries(ns, outcomes).value;
      |entries| == |ns| &&
      forall i :: 0 <= i < |ns| ==> outcomes[i].Ok? && entries[i] == Entry(ns[i].name, Batch(outcomes[i].value))
    decreases |ns|
  {
    if ns != [] {
      var commands := outcomes[0].value;
      assert NodeEntries(ns[0], commands) == [Entry(ns[0].name, Batch(commands))];
      assert forall i :: 0 <= i < |ns| - 1 && ns[1..][i].kind == Nodes.LightfieldRasterize ==> outcomes[1..][i].Err? by {
        forall i | 0 <= i < |ns| - 1 && ns[1..][i].kind == Nodes.LightfieldRasterize
          ensures outcomes[1..][i].Err?
        {
          assert ns[1..][i] == ns[i + 1];
        }
      }
      OneEntryPerNode(ns[1..], outcomes[1..]);
      var entries := Entries(ns, outcomes).value;
      var rest := Entries(ns[1..], outcomes[1..]).value;
      assert entries == [Entry(ns[0].name, Batch(commands))] + rest;
      forall i | 0 < i < |ns|
        ensures outcomes[i].Ok? && entries[i] == Entry(ns[i].name, Batch(outcomes[i].value))
      {
        assert entries[i] == rest[i - 1] && ns[1..][i - 1] == ns[i] && outcomes[1..][i - 1] == outcomes[i];
      }
    }
  }

  /** Prefixing the entries found so far to the outcome for the rest. */
  function Prefixed(list: seq<Entry>, r: Result<seq<Entry>>): Result<seq<Entry>> {
    if r.Err? then r else Ok(list + r.value)
  }

  /** Unfolding the list from position `i` on, with the entries before it
      already known. */
  lemma EntriesStep(ns: seq<Node>, outcomes: seq<Result<Option<seq<Item>>>>, i: nat, list: seq<Entry>)
    requires |ns| == |outcomes| && i < |ns|
    ensures outcomes[i].Err? ==> Prefixed(list, Entries(ns[i..], outcomes[i..])) == Err(outcomes[i].reason)
    ensures outcomes[i].Ok? ==>
      Prefixed(list, Entries(ns[i..], outcomes[i..])) ==
      Prefixed(list + NodeEntries(ns[i], outcomes[i].value), Entries(ns[i + 1..], outcomes[i + 1..]))
  {
    assert ns[i..][1..] == ns[i + 1..] && outcomes[i..][1..] == outcomes[i + 1..];
    assert ns[i..][0] == ns[i] && outcomes[i..][0] == outcomes[i];
    if outcomes[i].Ok? {
      var rest := Entries(ns[i + 1..], outcomes[i + 1..]);
      if rest.Ok? {
        assert list + (NodeEntries(ns[i], outcomes[i].value) + rest.value) ==
               (list + NodeEntries(ns[i], outcomes[i].value)) + rest.value;
      }
    }
  }

  /** One node's pre-execution, execution and post-execution entries,
      appended in that order. */
  method AppendEntries(list0: seq<Entry>, n: Node, commands: Option<seq<Item>>) returns (list: seq<Entry>)
    ensures list == list0 + NodeEntries(n, commands)
  {
    list := list0;
    var pre := Kinds.PreProcess(n.kind);
    if pre != [] {
      list := list + [Entry(n.name + " [Pre-execution]", Batch(Some(Kinds.Args(pre))))];
    }
    list := list + [Entry(n.name, Batch(commands))];
    var post := Kinds.PostProcess(n.kind);
    if post != [] {
      list := list + [Entry(n.name + " [Post-execution]", Batch(Some(Kinds.Args(post))))];
    }
  }

  /** The first loop of `dagExecuteNode`: the entries of every node in
      order. */
  method BuildEntries(g: Graph, scope: Variables.Scope, order: seq<Uuid>, packets: Uuid -> map<string, Packets.Packet>,
                      scaleText: string -> Result<string>) returns (r: Result<seq<Entry>>)
    requires Dag.Valid(g) && forall i :: 0 <= i < |order| ==> order[i] in g.nodes
    ensures r == Entries(NodesOf(g, order), Outcomes(g, scope, order, packets, scaleText))
  {
    ghost var ns := NodesOf(g, order);
    ghost var outcomes := Outcomes(g, scope, order, packets, scaleText);
    var list: seq<Entry> := [];
    var i := 0;
    assert ns[i..] == ns && outcomes[i..] == outcomes;
    if Entries(ns, outcomes).Ok? {
      assert list + Entries(ns, outcomes).value == Entries(ns, outcomes).value;
    }
    while i < |order|
      invariant 0 <= i <= |order| && |ns| == |order| && |outcomes| == |order|
      invariant Entries(ns, outcomes) == Prefixed(list, Entries(ns[i..], outcomes[i..]))
    {
      var n := g.nodes[order[i]];
      var commands := NodeCommands(g, scope, order[i], packets, scaleText);
      assert n == ns[i] && commands == outcomes[i];
      EntriesStep(ns, outcomes, i, list);
      if commands.Err? {
        return Err(commands.reason);
      }
      list := AppendEntries(list, n, commands.value);
      i := i + 1;
    }
    assert ns[i..] == [] && outcomes[i..] == [];
    assert list + [] == list;
    r := Ok(list);
  }

  // ---------------------------------------------------------------------------
  // Round-robin interleaving
  // ---------------------------------------------------------------------------

  /** The length of the shortest batch, where `izip` stops; no batch at all
      gives nothing. */
  function Shortest<T>(batches: seq<seq<T>>): (r: nat)
    ensures forall j :: 0 <= j < |batches| ==> r <= |batches[j]|
    ensures batches != [] ==> exists j :: 0 <= j < |batches| && r == |batches[j]|
    ensures batches == [] ==> r == 0
    decreases |batches|
  {
    if |batches| == 0 then 0
    else if |batches| == 1 then |batches[0]|
    else
      var rest := Shortest(batches[1..]);
      assert forall j :: 1 <= j < |batches| ==> batches[1..][j - 1] == batches[j];
      if |batches[0]| <= rest then |batches[0]| else rest
  }

  /** Round `k` of `izip(*batches)`: item `k` of every batch, in batch
      order. */
  function Round<T>(batches: seq<seq<T>>, k: nat): (r: seq<T>)
    requires k < Shortest(batches)
    ensures |r| == |batches| && forall j :: 0 <= j < |batches| ==> r[j] == batches[j][k]
  {
    seq(|batches|, j requires 0 <= j < |batches| => batches[j][k])
  }

  /** The first `n` rounds, one after the other. */
  function Rounds<T>(batches: seq<seq<T>>, n: nat): seq<T>
    requires n <= Shortest(batches)
  {
    if n == 0 then [] else Rounds(batches, n - 1) + Round(batches, n - 1)
  }

  /** The flattened `izip(*batches)`. */
  function Interleaved<T>(batches: seq<seq<T>>): seq<T> {
    Rounds(batches, Shortest(batches))
  }

  /** The rounds have the batch count as their length each. */
  lemma {:induction false} RoundsLength<T>(batches: seq<seq<T>>, n: nat)
    requires n <= Shortest(batches)
    ensures |Rounds(batches, n)| == n * |batches|
  {
    if n > 0 {
      RoundsLength(batches, n - 1);
      assert (n - 1) * |batches| + |batches| == n * |batches|;
    }
  }

  /** Item `k` of batch `j` sits at `k * m + j`, with `m` batches. */
  lemma {:induction false} RoundsIndex<T>(batches: seq<seq<T>>, n: nat, k: nat, j: nat)
    requires n <= Shortest(batches) && k < n && j < |batches|
    ensures k * |batches| + j < |Rounds(batches, n)|
    ensures Rounds(batches, n)[k * |batches| + j] == batches[j][k]
  {
    var m := |batches|;
    RoundsLength(batches, n - 1);
    RoundsLength(batches, n);
    if k < n - 1 {
      RoundsIndex(batches, n - 1, k, j);
    } else {
      assert k * m == (n - 1) * m;
    }
    assert k * m + j < n * m by {
      assert k * m + m == (k + 1) * m;
      MulMono(k + 1, n, m);
    }
  }

  lemma MulMono(a: nat, b: nat, m: nat)
    requires a <= b
    ensures a * m <= b * m
  {
  }

  /** The interleaving holds, for every batch, its first `L` items, `L` the
      length of the shortest: item `k` of batch `j` at position
      `k * m + j`, and nothing else. */
  lemma InterleavedIndex<T>(batches: seq<seq<T>>, k: nat, j: nat)
    requires k < Shortest(batches) && j < |batches|
    ensures |Interleaved(batches)| == Shortest(batches) * |batches|
    ensures k * |batches| + j < |Interleaved(batches)| && Interleaved(batches)[k * |batches| + j] == batches[j][k]
  {
    RoundsLength(batches, Shortest(batches));
    RoundsIndex(batches, Shortest(batches), k, j);
  }

  /** `for x in izip(*batches): full += x`. */
  method Interleave<T>(batches: seq<seq<T>>) returns (full: seq<T>)
    ensures full == Interleaved(batches)
  {
    full := [];
    var L := Shortest(batches);
    for k := 0 to L
      invariant full == Rounds(batches, k)
    {
      ghost var before := full;
      for j := 0 to |batches|
        invariant full == before + Round(batches, k)[..j]
      {
        assert Round(batches, k)[..j + 1] == Round(batches, k)[..j] + [batches[j][k]];
        full := full + [batches[j][k]];
      }
      assert Round(batches, k)[..|batches|] == Round(batches, k);
    }
  }

  // ---------------------------------------------------------------------------
  // Putting a group's interleaved commands in place
  // ---------------------------------------------------------------------------

  /** What `izip` reads from an entry's commands: a command list item by
      item, an interleaved text item character by character, an interleaved
      argument vector argument by argument; `None` cannot be iterated. */
  function Iterated(c: Commands): (r: Result<seq<Item>>)
    ensures r.Err? <==> c == Batch(None)
    ensures c.Batch? && c.list.Some? ==> r == Ok(c.list.value)
  {
    match c
    case Batch(None) => Err("TypeError: izip argument must support iteration")
    case Batch(Some(items)) => Ok(items)
    case Single(Arg(t)) => Ok(seq(|t|, i requires 0 <= i < |t| => Kinds.Arg([t[i]])))
    case Single(Run(args)) => Ok(Kinds.Args(args))
  }

  /** `[x[1] for x in entries]` as `izip` reads them: the batches, or an
      error when one cannot be iterated. */
  function Batches(entries: seq<Entry>): (r: Result<seq<seq<Item>>>)
    ensures r.Err? <==> exists i :: 0 <= i < |entries| && entries[i].commands == Batch(None)
    ensures r.Ok? ==>
      |r.value| == |entries| && forall i :: 0 <= i < |entries| ==> r.value[i] == Iterated(entries[i].commands).value
    decreases |entries|
  {
    if entries == [] then Ok([])
    else
      var first :- Iterated(entries[0].commands);
      var rest :- Batches(entries[1..]);
      assert forall i :: 1 <= i < |entries| ==> entries[1..][i - 1] == entries[i];
      Ok([first] + rest)
  }

  /** Each item as an entry carrying the group's name. */
  function Labelled(name: string, items: seq<Item>): (r: seq<Entry>)
    ensures |r| == |items| && forall i :: 0 <= i < |items| ==> r[i] == Entry(name, Single(items[i]))
  {
    seq(|items|, i requires 0 <= i < |items| => Entry(name, Single(items[i])))
  }

  /** Replacing positions `start` to `end` of the list by the interleaving
      of their commands, labelled with the group's name. The slice is read
      as Python slices, clamped to the list; deleting position `end` of a
      list that has none raises. */
  function Spliced(list: seq<Entry>, name: string, start: nat, end: nat): (r: Result<seq<Entry>>)
    requires start <= end
  {
    var slice := list[Kinds.Min(start, |list|)..Kinds.Min(end + 1, |list|)];
    var batches :- Batches(slice);
    if end >= |list| then Err("IndexError: list assignment index out of range")
    else Ok(list[..start] + Labelled(name, Interleaved(batches)) + list[end + 1..])
  }

  /** A splice keeps the list outside the slice and puts in its place one
      entry per interleaved item, all named after the group. */
  lemma SplicedShape(list: seq<Entry>, name: string, start: nat, end: nat)
    requires start <= end && Spliced(list, name, start, end).Ok?
    ensures var r := Spliced(list, name, start, end).value;
      var batches := Batches(list[start..end + 1]).value;
      var count := Shortest(batches) * (end + 1 - start);
      end < |list| && |r| == |list| - (end + 1 - start) + count &&
      r[..start] == list[..start] && r[start + count..] == list[end + 1..] &&
      forall i :: start <= i < start + count ==> r[i].name == name && r[i].commands.Single?
  {
    SplicedValue(list, name, start, end);
    var batches := Batches(list[start..end + 1]).value;
    InterleavedLength(batches);
    var mid := Labelled(name, Interleaved(batches));
    assert |mid| == Shortest(batches) * (end + 1 - start);
    ConcatParts(list[..start], mid, list[end + 1..]);
  }

  /** A splice that succeeds reads the slice in full. */
  lemma SplicedValue(list: seq<Entry>, name: string, start: nat, end: nat)
    requires start <= end && Spliced(list, name, start, end).Ok?
    ensures end < |list| && Batches(list[start..end + 1]).Ok?
    ensures |Batches(list[start..end + 1]).value| == end + 1 - start
    ensures Spliced(list, name, start, end).value ==
      list[..start] + Labelled(name, Interleaved(Batches(list[start..end + 1]).value)) + list[end + 1..]
  {
    assert list[start..end + 1] == list[Kinds.Min(start, |list|)..Kinds.Min(end + 1, |list|)];
  }

  /** The three parts of `a + b + c`, read back by position. */
  lemma ConcatParts(a: seq<Entry>, b: seq<Entry>, c: seq<Entry>)
    ensures (a + b + c)[..|a|] == a && (a + b + c)[|a| + |b|..] == c
    ensures forall i :: |a| <= i < |a| + |b| ==> (a + b + c)[i] == b[i - |a|]
  {
  }

  lemma InterleavedLength<T>(batches: seq<seq<T>>)
    ensures |Interleaved(batches)| == Shortest(batches) * |batches|
  {
    RoundsLength(batches, Shortest(batches));
  }

  /** The interleaving of `dagExecuteNode` for one group: read the
      commands of positions `start` to `end`, interleave them and name
      them after the group, delete the positions from the last down, and
      insert the new entries at `start`. */
  method SpliceGroup(list: seq<Entry>, name: string, start: nat, end: nat) returns (r: Result<seq<Entry>>)
    requires start <= end
    ensures r == Spliced(list, name, start, end)
  {
    var slice := list[Kinds.Min(start, |list|)..Kinds.Min(end + 1, |list|)];
    var batches := Batches(slice);
    if batches.Err? {
      return Err(batches.reason);
    }
    var full := Interleave(batches.value);
    var labelled := LabelAll(name, full);
    if end >= |list| {
      return Err("IndexError: list assignment index out of range");
    }
    var kept := DeleteRange(list, start, end);
    r := Ok(kept[..start] + labelled + kept[start..]);
  }

  /** The loop that names every interleaved item after the group. */
  method LabelAll(name: string, full: seq<Item>) returns (labelled: seq<Entry>)
    ensures labelled == Labelled(name, full)
  {
    labelled := [];
    for i := 0 to |full|
      invariant labelled == Labelled(name, full[..i])
    {
      labelled := labelled + [Entry(name, Single(full[i]))];
    }
    assert full[..|full|] == full;
  }

  /** `for d in range(end, start - 1, -1): del list[d]`. */
  method DeleteRange(list: seq<Entry>, start: nat, end: nat) returns (kept: seq<Entry>)
    requires start <= end < |list|
    ensures |kept| == |list| - (end + 1 - start)
    ensures kept[..start] == list[..start] && kept[start..] == list[end + 1..]
  {
    kept := list;
    var d: int := end;
    while d >= start
      invariant start - 1 <= d <= end
      invariant kept == list[..d + 1] + list[end + 1..]
    {
      kept := kept[..d] + kept[d + 1..];
      d := d - 1;
    }
    assert kept[..start] == list[..start];
  }

  // ---------------------------------------------------------------------------
  // Where a group sits in the node order
  // ---------------------------------------------------------------------------

  /** The first position from `i` on holding a member. */
  function FirstMember<T>(group: set<T>, list: seq<T>, i: nat): (r: Option<nat>)
    requires i <= |list|
    ensures r.None? ==> forall k :: i <= k < |list| ==> list[k] !in group
    ensures r.Some? ==> i <= r.value < |list| && list[r.value] in group && forall k :: i <= k < r.value ==> list[k] !in group
    decreases |list| - i
  {
    if i == |list| then None
    else if list[i] in group then Some(i)
    else FirstMember(group, list, i + 1)
  }

  /** The last position of the run of members starting at `i`. */
  function RunLast<T>(group: set<T>, list: seq<T>, i: nat): (r: nat)
    requires i < |list| && list[i] in group
    ensures i <= r < |list| && forall k :: i <= k <= r ==> list[k] in group
    ensures r + 1 < |list| ==> list[r + 1] !in group
    decreases |list| - i
  {
    if i + 1 < |list| && list[i + 1] in group then RunLast(group, list, i + 1) else i
  }

  /** `groupIndicesInExecutionList(group, list)` as a function: the first
      member's position, and the last position of its run unless the run
      reaches the end of the list. */
  function IndicesOf<T>(group: set<T>, list: seq<T>): (Option<nat>, Option<nat>) {
    match FirstMember(group, list, 0)
    case None => (None, None)
    case Some(s) =>
      var e := RunLast(group, list, s);
      (Some(s), if e + 1 < |list| then Some(e) else None)
  }

  /** A run of members from `s` to `e` that stops at `e` is the run
      `RunLast` finds. */
  lemma {:induction false} RunLastUnique<T>(group: set<T>, list: seq<T>, s: nat, e: nat)
    requires s <= e < |list| && forall k :: s <= k <= e ==> list[k] in group
    requires e + 1 == |list| || list[e + 1] !in group
    ensures RunLast(group, list, s) == e
    decreases e - s
  {
    if s < e {
      RunLastUnique(group, list, s + 1, e);
    }
  }

  /** The loop of `groupIndicesInExecutionList` computes `IndicesOf`: what
      its contract says of its results pins them down. */
  lemma IndicesAgree<T>(group: set<T>, list: seq<T>, start: Option<nat>, end: Option<nat>)
    requires start.None? <==> forall i :: 0 <= i < |list| ==> list[i] !in group
    requires start.Some? ==>
      start.value < |list| && list[start.value] in group &&
      forall i :: 0 <= i < start.value ==> list[i] !in group
    requires end.Some? ==>
      start.Some? && start.value <= end.value && end.value + 1 < |list| &&
      list[end.value + 1] !in group && forall i :: start.value <= i <= end.value ==> list[i] in group
    requires start.Some? && end.None? ==> forall i :: start.value <= i < |list| ==> list[i] in group
    ensures (start, end) == IndicesOf(group, list)
  {
    var first := FirstMember(group, list, 0);
    if start.Some? {
      assert first == start;
      if end.Some? {
        RunLastUnique(group, list, start.value, end.value);
      } else {
        RunLastUnique(group, list, start.value, |list| - 1);
      }
    }
  }

  /** The positions `dagExecuteNode` replaces, as written: an unknown end
      collapses to the start. */
  function SpanAsWritten<T>(group: set<T>, list: seq<T>): Option<(nat, nat)> {
    match IndicesOf(group, list)
    case (None, _) => None
    case (Some(s), None) => Some((s, s))
    case (Some(s), Some(e)) => Some((s, e))
  }

  /** The positions the interleaving is meant to replace: the whole first
      run of members, an unknown end standing for the end of the list. */
  function Span<T>(group: set<T>, list: seq<T>): (r: Option<(nat, nat)>)
    ensures r.None? <==> forall i :: 0 <= i < |list| ==> list[i] !in group
    ensures r.Some? ==>
      r.value.0 <= r.value.1 < |list| &&
      (forall i :: 0 <= i < r.value.0 ==> list[i] !in group) &&
      (forall i :: r.value.0 <= i <= r.value.1 ==> list[i] in group) &&
      (r.value.1 + 1 < |list| ==> list[r.value.1 + 1] !in group)
  {
    match IndicesOf(group, list)
    case (None, _) => None
    case (Some(s), None) => Some((s, |list| - 1))
    case (Some(s), Some(e)) => Some((s, e))
  }

  /** When the group's members close the order, as when the node executed
      is the last of its group, the span as written holds only the first
      of them: with order `[a, b]` and group `{a, b}` only `a`'s commands
      are interleaved and `b`'s entry is left as it was, while the
      intended span covers both. */
  lemma SpanAtEndOfOrder<T>(a: T, b: T)
    requires a != b
    ensures SpanAsWritten({a, b}, [a, b]) == Some((0, 0))
    ensures Span({a, b}, [a, b]) == Some((0, 1))
  {
    assert FirstMember({a, b}, [a, b], 0) == Some(0);
    assert RunLast({a, b}, [a, b], 1) == 1;
    assert RunLast({a, b}, [a, b], 0) == 1;
  }

  // ---------------------------------------------------------------------------
  // The plan
  // ---------------------------------------------------------------------------

  /** Interleaving one group: nothing when none of its members is in the
      order, otherwise its span of the order replaced in the list. */
  function ApplyGroup(list: seq<Entry>, name: string, members: set<Uuid>, order: seq<Uuid>): Result<seq<Entry>> {
    match Span(members, order)
    case None => Ok(list)
    case Some((s, e)) => Spliced(list, name, s, e)
  }

  /** Interleaving the groups one after the other, in the order given. The
      spans are found in the node order each time, whatever earlier groups
      did to the list. */
  function ApplyGroups(g: Graph, order: seq<Uuid>, list: seq<Entry>, names: seq<string>): Result<seq<Entry>>
    requires forall i :: 0 <= i < |names| ==> names[i] in g.groups
    decreases |names|
  {
    if names == [] then Ok(list)
    else
      var next :- ApplyGroup(list, names[0], g.groups[names[0]], order);
      ApplyGroups(g, order, next, names[1..])
  }

  /** `groupOrder` is the order the group dictionary yields its groups:
      each once. */
  predicate Enumerates(groupOrder: seq<string>, groups: map<string, set<Uuid>>) {
    (forall i :: 0 <= i < |groupOrder| ==> groupOrder[i] in groups) &&
    (forall name :: name in groups ==> name in groupOrder) &&
    (forall i, j :: 0 <= i < j < |groupOrder| ==> groupOrder[i] != groupOrder[j])
  }

  /** The second loop of `dagExecuteNode`: for each group, its span in the
      node order, its name, and the splice. */
  method InterleaveGroups(g: Graph, order: seq<Uuid>, list: seq<Entry>, groupOrder: seq<string>) returns (r: Result<seq<Entry>>)
    requires Dag.DistinctGroups(g) && Enumerates(groupOrder, g.groups)
    ensures r == ApplyGroups(g, order, list, groupOrder)
  {
    r := Ok(list);
    var i := 0;
    assert groupOrder[i..] == groupOrder;
    while i < |groupOrder| && r.Ok?
      invariant 0 <= i <= |groupOrder|
      invariant r.Ok? ==> ApplyGroups(g, order, list, groupOrder) == ApplyGroups(g, order, r.value, groupOrder[i..])
      invariant r.Err? ==> ApplyGroups(g, order, list, groupOrder) == r
      decreases |groupOrder| - i, if r.Ok? then 1 else 0
    {
      var name := groupOrder[i];
      var members := g.groups[name];
      assert groupOrder[i..][0] == name && groupOrder[i..][1..] == groupOrder[i + 1..];
      var start, end := Dag.GroupIndices(members, order);
      IndicesAgree(members, order, start, end);
      if start.Some? {
        var groupName := Dag.GroupName(g, members);
        assert members in g.groups.Values;
        var last := if end.None? then |order| - 1 else end.value;
        r := SpliceGroup(r.value, groupName.value, start.value, last);
      }
      if r.Ok? {
        i := i + 1;
      }
    }
  }

  /** The plan for a list of nodes in execution order: their entries, then
      the groups interleaved. */
  function PlanOf(g: Graph, scope: Variables.Scope, order: seq<Uuid>, packets: Uuid -> map<string, Packets.Packet>,
                  scaleText: string -> Result<string>, groupOrder: seq<string>): Result<seq<Entry>>
    requires Dag.Valid(g) && forall i :: 0 <= i < |order| ==> order[i] in g.nodes
    requires forall i :: 0 <= i < |groupOrder| ==> groupOrder[i] in g.groups
  {
    var entries :- Entries(NodesOf(g, order), Outcomes(g, scope, order, packets, scaleText));
    ApplyGroups(g, order, entries, groupOrder)
  }

  /** `dagExecuteNode` once the order is known: the sanity check first,
      and no plan when it raises; otherwise the plan. */
  method ExecuteOrder(g: Graph, scope: Variables.Scope, order: seq<Uuid>, ghost rank: map<Uuid, nat>, w: Sanity.World,
                      packets: Uuid -> map<string, Packets.Packet>, scaleText: string -> Result<string>,
                      groupOrder: seq<string>) returns (r: Result<seq<Entry>>)
    requires Sanity.Packable(g, scope, rank) && forall i :: 0 <= i < |order| ==> order[i] in g.nodes
    requires Dag.DistinctGroups(g) && Enumerates(groupOrder, g.groups)
    ensures !Sanity.Sane(g, scope, order, rank, w) ==> r.Err?
    ensures Sanity.Sane(g, scope, order, rank, w) ==> r == PlanOf(g, scope, order, packets, scaleText, groupOrder)
  {
    var sane := Sanity.SanityCheck(g, scope, order, rank, w);
    if sane.Err? {
      return Err(sane.reason);
    }
    var entries := BuildEntries(g, scope, order, packets, scaleText);
    if entries.Err? {
      return Err(entries.reason);
    }
    r := InterleaveGroups(g, order, entries.value, groupOrder);
  }

  /** Everything a node depends on is in the graph. */
  lemma DependenciesInGraph(g: Graph, scope: Variables.Scope, u: Uuid, fulfilled: Uuid -> bool)
    requires Dag.Valid(g) && Dag.BindingsOnEdges(g, scope) && u in g.nodes
    ensures Dag.Dependencies(g, scope, u, true, fulfilled, true) <= g.nodes.Keys
  {
    Dag.DependenciesBefore(g, scope, u, true, fulfilled, true);
    forall b | b in Dag.Before(g, u)
      ensures b in g.nodes
    {
      var e :| e in g.edges && e.1 == b;
    }
  }

  /** `dagExecuteNode(n)`: the nodes `n` needs whose data is not yet on
      disk, in dependency order and followed by `n`, checked and turned
      into a plan. `fulfilled` says which nodes have their data on disk;
      `groupOrder` is the order of the group dictionary. */
  method ExecuteNode(g: Graph, scope: Variables.Scope, u: Uuid, fulfilled: Uuid -> bool, ghost rank: map<Uuid, nat>,
                     w: Sanity.World, packets: Uuid -> map<string, Packets.Packet>, scaleText: string -> Result<string>,
                     groupOrder: seq<string>) returns (r: Result<seq<Entry>>)
    requires Sanity.Packable(g, scope, rank) && u in g.nodes
    requires Dag.DistinctGroups(g) && Enumerates(groupOrder, g.groups)
    ensures Dag.SceneGraphFails(g, scope, u, rank) ==> r.Err?
    ensures !Dag.SceneGraphFails(g, scope, u, rank) ==>
      exists order :: OrderOf(g, scope, u, fulfilled, order) && PlannedFrom(g, scope, order, rank, w, packets, scaleText, groupOrder, r)
  {
    var ordered := Dag.OrderedDependencies(g, scope, u, true, true, fulfilled, true, rank);
    if ordered.Err? {
      return Err(ordered.reason);
    }
    var order := ordered.value;
    OrderOfDependencies(g, scope, u, fulfilled, order);
    r := ExecuteOrder(g, scope, order, rank, w, packets, scaleText, groupOrder);
    assert PlannedFrom(g, scope, order, rank, w, packets, scaleText, groupOrder, r);
  }

  /** The order `orderedNodeDependenciesAt` gives, with the node included. */
  lemma OrderOfDependencies(g: Graph, scope: Variables.Scope, u: Uuid, fulfilled: Uuid -> bool, order: seq<Uuid>)
    requires Dag.Valid(g) && Dag.BindingsOnEdges(g, scope) && u in g.nodes
    requires exists list :: order == Dag.Reversed(list) + [u]
    requires forall x :: x in order <==> x == u || x in Dag.Dependencies(g, scope, u, true, fulfilled, true)
    ensures OrderOf(g, scope, u, fulfilled, order)
  {
    DependenciesInGraph(g, scope, u, fulfilled);
  }

  /** `order` lists the given node last and, before it, exactly the nodes it
      depends on whose data is not on disk. */
  ghost predicate OrderOf(g: Graph, scope: Variables.Scope, u: Uuid, fulfilled: Uuid -> bool, order: seq<Uuid>)
    requires Dag.Valid(g)
  {
    |order| > 0 && order[|order| - 1] == u &&
    (forall x :: x in order <==> x == u || x in Dag.Dependencies(g, scope, u, true, fulfilled, true)) &&
    (forall i :: 0 <= i < |order| ==> order[i] in g.nodes)
  }

  /** `r` is what `dagExecuteNode` yields for the nodes `order`: an error
      when they are not sane, otherwise their plan. */
  ghost predicate PlannedFrom(g: Graph, scope: Variables.Scope, order: seq<Uuid>, rank: map<Uuid, nat>, w: Sanity.World,
                              packets: Uuid -> map<string, Packets.Packet>, scaleText: string -> Result<string>,
                              groupOrder: seq<string>, r: Result<seq<Entry>>)
    requires Sanity.Packable(g, scope, rank) && forall i :: 0 <= i < |order| ==> order[i] in g.nodes
    requires Enumerates(groupOrder, g.groups)
  {
    (!Sanity.Sane(g, scope, order, rank, w) ==> r.Err?) &&
    (Sanity.Sane(g, scope, order, rank, w) ==> r == PlanOf(g, scope, order, packets, scaleText, groupOrder))
  }

  // ---------------------------------------------------------------------------
  // groupSelectedNodes
  // ---------------------------------------------------------------------------

  /** What grouping the selected nodes yields: refused when one of them is
      already in a group; otherwise a new group named like `group01`. */
  function Grouped(g: Graph, selected: set<Uuid>, groupOrder: seq<string>): (r: Result<Graph>)
    ensures r.Ok? ==> forall u :: u in selected ==> Dag.GroupCount(g, u) == 0
  {
    if exists u :: u in selected && Dag.GroupCount(g, u) > 0 then
      Err("Nodes cannot currently be in more than one group.")
    else
      var name :- Util.UniqueName("group", groupOrder);
      Dag.AddGroup(g, name, selected)
  }

  /** `groupSelectedNodes()`: each selected node is checked in turn before
      the new group is named and added to the graph. `groupOrder` is the
      order of the group dictionary's keys. */
  method GroupSelected(dag: Dag.Dag, selected: set<Uuid>, groupOrder: seq<string>) returns (outcome: Result<()>)
    requires Enumerates(groupOrder, dag.groups)
    modifies dag
    ensures outcome.Err? <==> Grouped(old(dag.Value()), selected, groupOrder).Err?
    ensures outcome.Ok? ==> dag.Value() == Grouped(old(dag.Value()), selected, groupOrder).value
    ensures outcome.Err? ==> dag.Value() == old(dag.Value())
  {
    ghost var g := dag.Value();
    var rest := selected;
    while rest != {}
      invariant rest <= selected
      invariant forall u :: u in selected - rest ==> Dag.GroupCount(g, u) == 0
      decreases |rest|
    {
      var u :| u in rest;
      if Dag.GroupCount(dag.Value(), u) > 0 {
        return Err("Nodes cannot currently be in more than one group.");
      }
      rest := rest - {u};
    }
    var name := Util.UniqueName("group", groupOrder);
    if name.Err? {
      return Err(name.reason);
    }
    outcome := dag.AddNodeGroup(name.value, selected);
  }

  /** When no node is in two groups and no two groups hold the same nodes,
      grouping keeps it so; the new group holds exactly the selected nodes,
      under a name no group had. It fails only when a selected node is in a
      group, an existing name has no number after `group`, or the selection
      is empty and an empty group already exists. */
  lemma GroupedKeepsGroups(g: Graph, selected: set<Uuid>, groupOrder: seq<string>)
    requires Enumerates(groupOrder, g.groups) && Dag.DistinctGroups(g)
    requires forall u :: Dag.GroupCount(g, u) <= 1
    ensures Grouped(g, selected, groupOrder).Err? <==>
              (exists u :: u in selected && Dag.GroupCount(g, u) > 0) ||
              Util.UniqueName("group", groupOrder).Err? ||
              (selected == {} && {} in g.groups.Values)
    ensures Grouped(g, selected, groupOrder).Ok? ==>
              var h := Grouped(g, selected, groupOrder).value;
              var name := Util.UniqueName("group", groupOrder).value;
              name !in g.groups && h.groups == g.groups[name := selected] &&
              h.nodes == g.nodes && h.edges == g.edges && h.stale == g.stale &&
              Dag.DistinctGroups(h) && forall u :: Dag.GroupCount(h, u) <= 1
  {
    var r := Grouped(g, selected, groupOrder);
    if !(exists u :: u in selected && Dag.GroupCount(g, u) > 0) && Util.UniqueName("group", groupOrder).Ok? {
      var name := Util.UniqueName("group", groupOrder).value;
      Util.UniqueNameFresh("group", groupOrder);
      assert name !in g.groups;
      if selected != {} {
        var v :| v in selected;
        assert forall k :: k in g.groups ==> v !in g.groups[k];
        assert selected !in g.groups.Values;
      }
      if r.Ok? {
        var h := r.value;
        Dag.AddGroupDistinct(g, name, selected);
        forall u
          ensures Dag.GroupCount(h, u) <= 1
        {
          GroupCountAfterAdd(g, name, selected, u);
        }
      }
    }
  }

  /** Adding a group under a new name counts it once for each of its members. */
  lemma GroupCountAfterAdd(g: Graph, name: string, members: set<Uuid>, u: Uuid)
    requires name !in g.groups && Dag.GroupCount(g, u) <= 1
    requires u in members ==> Dag.GroupCount(g, u) == 0
    ensures Dag.GroupCount(Dag.Graph(g.nodes, g.edges, g.stale, g.groups[name := members]), u) <= 1
  {
    var h := Dag.Graph(g.nodes, g.edges, g.stale, g.groups[name := members]);
    var before := set k | k in g.groups && u in g.groups[k];
    var after := set k | k in h.groups && u in h.groups[k];
    if u in members {
      assert before == {};
      assert after == {name};
    } else {
      assert after == before;
    }
  }
}
