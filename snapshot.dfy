/*
  Saving and loading a graph: `snapshot` writes the graph out as plain
  records (names, class names, UUID texts, property values and ranges,
  edges as FROM/TO UUID texts, groups as lists of UUID texts), and
  `restoreSnapshot` clears the graph and rebuilds it from such records,
  node by node, then edge by edge, then group by group. `dagSnapshotDiff`
  compares two snapshots record by record.

  The metadata dictionaries a snapshot also carries (node positions, edge
  metadata, the variable list) pass through the graph untouched and are not
  part of this model.
*/
module Snapshots {
  import opened Wrappers
  import Closure
  import Packets
  import Nodes
  import Dag

  type Uuid = Packets.Uuid
  type Node = Nodes.Node
  type Property = Nodes.Property
  type Graph = Dag.Graph

  /** `{NAME, VALUE, RANGE}` of an input or an attribute. */
  datatype ValueRecord = ValueRecord(name: string, value: string, seqRange: Nodes.Range)

  /** `{NAME, VALUE, RANGE}` of an output, whose value is its dictionary of
      sub-outputs. */
  datatype FilesRecord = FilesRecord(name: string, files: map<string, string>, seqRange: Nodes.Range)

  /** One entry of `NODES`. */
  datatype NodeRecord = NodeRecord(
    name: string, typeName: string, uuidText: string, staleText: string,
    inputs: seq<ValueRecord>, outputs: seq<FilesRecord>, attributes: seq<ValueRecord>)

  /** One entry of `EDGES`: the provider's and the consumer's UUID texts. */
  datatype EdgeRecord = EdgeRecord(from: string, to: string)

  /** One entry of `GROUPS`. */
  datatype GroupRecord = GroupRecord(name: string, nodes: seq<string>)

  datatype SnapshotDict = SnapshotDict(nodes: seq<NodeRecord>, edges: seq<EdgeRecord>, groups: seq<GroupRecord>)

  // ---------------------------------------------------------------------------
  // Class names
  // ---------------------------------------------------------------------------

  /** `type(dagNode).__name__`. */
  function ClassName(k: Nodes.Kind): string {
    match k
    case LightprobeReduce => "DagNodeLightprobeReduce"
    case StructureFromMotion => "DagNodeStructureFromMotion"
    case ColorspaceApply => "DagNodeColorspaceApply"
    case LightfieldRasterize => "DagNodeLightfieldRasterize"
    case ImageTransform => "DagNodeImageTransform"
    case Ls => "DagNodeLs"
    case Awk => "DagNodeAwk"
    case Read(t) => Nodes.ReadNodeClassName(t)
  }

  /** The packet type a read node class is generated for. */
  function ReadTypeNamed(typeName: string): (r: Option<Packets.PacketType>)
    ensures r.Some? ==> Nodes.ReadNodeClassName(r.value) == typeName
  {
    if typeName == Nodes.ReadNodeClassName(Packets.Image) then Some(Packets.Image)
    else if typeName == Nodes.ReadNodeClassName(Packets.Lightprobe) then Some(Packets.Lightprobe)
    else if typeName == Nodes.ReadNodeClassName(Packets.Pointcloud) then Some(Packets.Pointcloud)
    else if typeName == Nodes.ReadNodeClassName(Packets.Lightfield) then Some(Packets.Lightfield)
    else if typeName == Nodes.ReadNodeClassName(Packets.BoundingBox) then Some(Packets.BoundingBox)
    else if typeName == Nodes.ReadNodeClassName(Packets.Colorspace) then Some(Packets.Colorspace)
    else if typeName == Nodes.ReadNodeClassName(Packets.TextFile) then Some(Packets.TextFile)
    else None
  }

  /** `classTypeNamedFromModule(typeName, ...)`: the registered class of
      that name; `None` where the lookup's `[0]` raises `IndexError`. */
  function KindNamed(typeName: string): (r: Option<Nodes.Kind>)
    ensures r.Some? ==> ClassName(r.value) == typeName
  {
    if typeName == "DagNodeLightprobeReduce" then Some(Nodes.LightprobeReduce)
    else if typeName == "DagNodeStructureFromMotion" then Some(Nodes.StructureFromMotion)
    else if typeName == "DagNodeColorspaceApply" then Some(Nodes.ColorspaceApply)
    else if typeName == "DagNodeLightfieldRasterize" then Some(Nodes.LightfieldRasterize)
    else if typeName == "DagNodeImageTransform" then Some(Nodes.ImageTransform)
    else if typeName == "DagNodeLs" then Some(Nodes.Ls)
    else if typeName == "DagNodeAwk" then Some(Nodes.Awk)
    else
      var t :- ReadTypeNamed(typeName);
      Some(Nodes.Read(t))
  }

  /** Every class is found again by its name, so no two kinds share one. */
  lemma KindNamedClassName(k: Nodes.Kind)
    ensures KindNamed(ClassName(k)) == Some(k)
  {
    if k.Read? {
      ReadNameNotBundled(k.packetType);
      ReadTypeNamedOf(k.packetType);
    }
  }

  /** A read node's class name is none of the bundled classes' names. */
  lemma ReadNameNotBundled(t: Packets.PacketType)
    ensures var s := Nodes.ReadNodeClassName(t);
      s != "DagNodeLightprobeReduce" && s != "DagNodeStructureFromMotion" && s != "DagNodeColorspaceApply" &&
      s != "DagNodeLightfieldRasterize" && s != "DagNodeImageTransform" && s != "DagNodeLs" && s != "DagNodeAwk"
  {
    var s := Nodes.ReadNodeClassName(t);
    assert s[|s| - 1] == 'd';
  }

  /** Each read class name leads back to its packet type. */
  lemma ReadTypeNamedOf(t: Packets.PacketType)
    ensures ReadTypeNamed(Nodes.ReadNodeClassName(t)) == Some(t)
  {
    var s := Nodes.ReadNodeClassName(t);
    assert s[7] == Nodes.TypeName(t)[0];
    if t == Packets.Lightprobe || t == Packets.Lightfield {
      assert s[12] == Nodes.TypeName(t)[5];
    }
  }

  // ---------------------------------------------------------------------------
  // Node records
  // ---------------------------------------------------------------------------

  /** What a stored property shares with the one `DagNode.__init__` put
      under the same key: the declared constants; for an output, at least
      the declared sub-outputs and no range unless the stored one has one. */
  predicate Agrees(c: Property, s: Property) {
    match c
    case InputProp(name, t, req, _, _) => s.InputProp? && s.name == name && s.packetType == t && s.required == req
    case OutputProp(name, t, files, range) =>
      s.OutputProp? && s.name == name && s.packetType == t && files != map[] && files.Keys <= s.files.Keys &&
      (s.seqRange.None? ==> range.None?)
    case AttributeProp(name, _, ft, _) => s.AttributeProp? && s.name == name && s.isFileType == ft
  }

  /** A node as the source builds it: the declared properties and no others,
      each still of its declared kind, name and type. */
  predicate Conforms(n: Node) {
    var declared := Nodes.FreshProps(n.kind);
    Nodes.Wf(n) && n.props.Keys == declared.Keys &&
    forall key :: key in declared ==> Agrees(declared[key], n.props[key])
  }

  /** A declared output's dictionary holds at least `filename`. */
  lemma FreshFilesNonEmpty(t: Packets.PacketType)
    ensures "filename" in Nodes.FreshFiles(t)
  {
    Packets.SlotTables();
    assert "filename" in Packets.Slots(t);
  }

  /** A property agrees with itself once something agrees with it. */
  lemma AgreesSelf(c: Property, s: Property)
    requires Agrees(c, s)
    ensures Agrees(s, s)
  {
  }

  /** The keys `DagNode.__init__` fills: one per declared input, output and
      attribute. */
  lemma FreshKeys(k: Nodes.Kind)
    ensures Nodes.FreshProps(k).Keys ==
      (set i | 0 <= i < |Nodes.InputDecls(k)| :: Nodes.InputKey(Nodes.InputDecls(k)[i].name)) +
      (set i | 0 <= i < |Nodes.OutputDecls(k)| :: Nodes.OutputKey(Nodes.OutputDecls(k)[i].name)) +
      (set i | 0 <= i < |Nodes.AttributeDecls(k)| :: Nodes.AttributeDecls(k)[i].name)
  {
  }

  /** In a well-formed dictionary the key tells the kind of property under it. */
  lemma PropAtKey(m: map<string, Property>, key: string)
    requires Nodes.WfProps(m) && key in m
    ensures forall a :: key == Nodes.InputKey(a) ==> m[key].InputProp?
    ensures forall a :: key == Nodes.OutputKey(a) ==> m[key].OutputProp?
    ensures '@' !in key ==> m[key].AttributeProp?
  {
    assert Nodes.KeyedAt(key, m[key]);
    forall a | key == Nodes.InputKey(a)
      ensures m[key].InputProp?
    {
      Nodes.KeysDisjoint(a, m[key].name);
    }
    forall a | key == Nodes.OutputKey(a)
      ensures m[key].OutputProp?
    {
      Nodes.KeysDisjoint(m[key].name, a);
    }
    if '@' !in key {
      Nodes.KeysDisjoint(m[key].name, m[key].name);
    }
  }

  /** The record of an input or an attribute. */
  function ValueRecordOf(p: Property): (r: ValueRecord)
    requires !p.OutputProp?
    ensures r.name == p.name && r.seqRange == p.seqRange
  {
    ValueRecord(p.name, p.value, p.seqRange)
  }

  /** The record of an output. */
  function FilesRecordOf(p: Property): (r: FilesRecord)
    requires p.OutputProp?
    ensures r.name == p.name && r.seqRange == p.seqRange
  {
    FilesRecord(p.name, p.files, p.seqRange)
  }

  /** `str(bool)`. */
  function BoolText(b: bool): string {
    if b then "True" else "False"
  }

  /** The record of the input of that name (every declared input is there
      in a node the source built). */
  function InputRecordAt(n: Node, name: string): (r: ValueRecord)
    requires Nodes.Wf(n)
    ensures r.name == name
  {
    match Nodes.InputNamed(n, name)
    case Ok(p) => ValueRecordOf(p)
    case Err(_) => ValueRecord(name, "", None)
  }

  function OutputRecordAt(n: Node, name: string): (r: FilesRecord)
    requires Nodes.Wf(n)
    ensures r.name == name
  {
    match Nodes.OutputNamed(n, name)
    case Ok(p) => FilesRecordOf(p)
    case Err(_) => FilesRecord(name, map[], None)
  }

  function AttributeRecordAt(n: Node, name: string): (r: ValueRecord)
    requires Nodes.Wf(n)
    ensures r.name == name
  {
    match Nodes.AttributeNamed(n, name)
    case Ok(p) => ValueRecordOf(p)
    case Err(_) => ValueRecord(name, "", None)
  }

  /** One entry of `NODES`, the properties in declaration order. */
  function NodeRecordOf(n: Node, isStale: bool): (r: NodeRecord)
    requires Nodes.Wf(n)
    ensures r.name == n.name && r.typeName == ClassName(n.kind) && r.uuidText == Packets.UuidText(n.uuid)
    ensures r.staleText == "True" <==> isStale
    ensures |r.inputs| == |Nodes.InputDecls(n.kind)| &&
      forall i :: 0 <= i < |r.inputs| ==> r.inputs[i].name == Nodes.InputDecls(n.kind)[i].name
    ensures |r.outputs| == |Nodes.OutputDecls(n.kind)| &&
      forall i :: 0 <= i < |r.outputs| ==> r.outputs[i].name == Nodes.OutputDecls(n.kind)[i].name
    ensures |r.attributes| == |Nodes.AttributeDecls(n.kind)| &&
      forall i :: 0 <= i < |r.attributes| ==> r.attributes[i].name == Nodes.AttributeDecls(n.kind)[i].name
  {
    var ins, outs, attrs := Nodes.InputDecls(n.kind), Nodes.OutputDecls(n.kind), Nodes.AttributeDecls(n.kind);
    NodeRecord(n.name, ClassName(n.kind), Packets.UuidText(n.uuid), BoolText(isStale),
      seq(|ins|, i requires 0 <= i < |ins| => InputRecordAt(n, ins[i].name)),
      seq(|outs|, i requires 0 <= i < |outs| => OutputRecordAt(n, outs[i].name)),
      seq(|attrs|, i requires 0 <= i < |attrs| => AttributeRecordAt(n, attrs[i].name)))
  }

  // ---------------------------------------------------------------------------
  // Restoring one node
  // ---------------------------------------------------------------------------

  function InputKeys(rs: seq<ValueRecord>): set<string> {
    set i | 0 <= i < |rs| :: Nodes.InputKey(rs[i].name)
  }

  function OutputKeys(rs: seq<FilesRecord>): set<string> {
    set i | 0 <= i < |rs| :: Nodes.OutputKey(rs[i].name)
  }

  function AttributeKeys(rs: seq<ValueRecord>): set<string> {
    set i | 0 <= i < |rs| :: rs[i].name
  }

  /** The `INPUTS` loop: value, then range, of each named input. An unknown
      input raises and ends the load. Properties no record names are left
      as they were. */
  function RestoreInputs(n: Node, rs: seq<ValueRecord>): (r: Result<Node>)
    requires Nodes.Wf(n)
    ensures r.Ok? <==> forall i :: 0 <= i < |rs| ==> Nodes.InputKey(rs[i].name) in n.props
    ensures r.Ok? ==> Nodes.Rewritten(n, r.value)
    ensures r.Ok? ==> forall key :: key in n.props && key !in InputKeys(rs) ==> r.value.props[key] == n.props[key]
    decreases |rs|
  {
    if rs == [] then Ok(n)
    else
      var m :- Nodes.SetInputValue(n, rs[0].name, rs[0].value);
      var m' := Nodes.SetInputRange(m, rs[0].name, rs[0].seqRange).value;
      assert forall i :: 1 <= i < |rs| ==> rs[i] == rs[1..][i - 1];
      RestoreInputs(m', rs[1..])
  }

  /** The `OUTPUTS` loop body: `setOutputValue` for every sub-output of the
      record and, when the record has a range, `setOutputRange` with it; the
      range call sits inside the sub-output loop, so a record without
      sub-outputs writes nothing at all, not even its range. */
  function RestoreOutput(n: Node, rec: FilesRecord): (r: Result<Node>)
    requires Nodes.Wf(n)
    ensures r.Ok? <==> rec.files == map[] || Nodes.OutputKey(rec.name) in n.props
    ensures r.Ok? ==> Nodes.Rewritten(n, r.value)
    ensures r.Ok? ==> forall key :: key in n.props && key != Nodes.OutputKey(rec.name) ==> r.value.props[key] == n.props[key]
  {
    if rec.files == map[] then Ok(n)
    else
      var p :- Nodes.OutputNamed(n, rec.name);
      var range := if rec.seqRange.Some? then rec.seqRange else p.seqRange;
      var m := Nodes.Node(n.kind, n.name, n.uuid,
        n.props[Nodes.OutputKey(rec.name) := Nodes.OutputProp(p.name, p.packetType, p.files + rec.files, range)]);
      assert Nodes.KeyedAt(Nodes.OutputKey(rec.name), m.props[Nodes.OutputKey(rec.name)]);
      Ok(m)
  }

  /** One pass of the sub-output loop is one `setOutputValue` (and the range
      write): taking any one sub-output first and the rest after gives the
      same node, so the order the dictionary is walked in does not matter. */
  lemma RestoreOutputStep(n: Node, rec: FilesRecord, sub: string)
    requires Nodes.Wf(n) && Nodes.OutputKey(rec.name) in n.props && sub in rec.files
    ensures var m := Nodes.SetOutputValue(n, rec.name, sub, rec.files[sub]).value;
      var m' := if rec.seqRange.Some? then Nodes.SetOutputRange(m, rec.name, rec.seqRange).value else m;
      var rest := FilesRecord(rec.name, rec.files - {sub}, rec.seqRange);
      RestoreOutput(n, rec) == if rest.files == map[] then Ok(m') else RestoreOutput(m', rest)
  {
    var key := Nodes.OutputKey(rec.name);
    var p := n.props[key];
    Nodes.KindAtKey(n, key);
    var v := rec.files[sub];
    var range := if rec.seqRange.Some? then rec.seqRange else p.seqRange;
    var m := Nodes.SetOutputValue(n, rec.name, sub, v).value;
    var m' := if rec.seqRange.Some? then Nodes.SetOutputRange(m, rec.name, rec.seqRange).value else m;
    assert m'.props == n.props[key := Nodes.OutputProp(p.name, p.packetType, p.files[sub := v], range)];
    var rest := FilesRecord(rec.name, rec.files - {sub}, rec.seqRange);
    assert p.files + rec.files == p.files[sub := v] + (rec.files - {sub});
    if rest.files == map[] {
      assert rec.files == map[sub := v];
      assert p.files + rec.files == p.files[sub := v];
    } else {
      assert m'.props[key := Nodes.OutputProp(p.name, p.packetType, p.files[sub := v] + rest.files, range)]
        == n.props[key := Nodes.OutputProp(p.name, p.packetType, p.files + rec.files, range)];
    }
  }

  /** The `OUTPUTS` loop. */
  function RestoreOutputs(n: Node, rs: seq<FilesRecord>): (r: Result<Node>)
    requires Nodes.Wf(n)
    ensures r.Ok? <==> forall i :: 0 <= i < |rs| ==> rs[i].files == map[] || Nodes.OutputKey(rs[i].name) in n.props
    ensures r.Ok? ==> Nodes.Rewritten(n, r.value)
    ensures r.Ok? ==> forall key :: key in n.props && key !in OutputKeys(rs) ==> r.value.props[key] == n.props[key]
    decreases |rs|
  {
    if rs == [] then Ok(n)
    else
      var m :- RestoreOutput(n, rs[0]);
      assert forall i :: 1 <= i < |rs| ==> rs[i] == rs[1..][i - 1];
      RestoreOutputs(m, rs[1..])
  }

  /** The `ATTRIBUTES` loop: value, then range, of each named attribute. */
  function RestoreAttributes(n: Node, rs: seq<ValueRecord>): (r: Result<Node>)
    requires Nodes.Wf(n)
    ensures r.Ok? <==> forall i :: 0 <= i < |rs| ==> rs[i].name in n.props && '@' !in rs[i].name
    ensures r.Ok? ==> Nodes.Rewritten(n, r.value)
    ensures r.Ok? ==> forall key :: key in n.props && key !in AttributeKeys(rs) ==> r.value.props[key] == n.props[key]
    decreases |rs|
  {
    if rs == [] then Ok(n)
    else
      var m :- Nodes.SetAttributeValue(n, rs[0].name, rs[0].value);
      var m' := Nodes.SetAttributeRange(m, rs[0].name, rs[0].seqRange).value;
      assert forall i :: 1 <= i < |rs| ==> rs[i] == rs[1..][i - 1];
      RestoreAttributes(m', rs[1..])
  }

  /** The body of the `NODES` loop: a default-constructed node of the named
      class, whose name and UUID are overwritten as they are (the name is
      not cleaned), then its inputs, outputs and attributes; and the stale
      flag, true only for the text `True`. */
  function RestoreNode(rec: NodeRecord): (r: Result<(Node, bool)>)
    ensures KindNamed(rec.typeName).None? || Packets.ParseUuid(rec.uuidText).None? ==> r.Err?
    ensures r.Ok? ==>
      Nodes.Wf(r.value.0) && ClassName(r.value.0.kind) == rec.typeName && r.value.0.name == rec.name &&
      Packets.ParseUuid(rec.uuidText) == Some(r.value.0.uuid) &&
      r.value.0.props.Keys == Nodes.FreshProps(r.value.0.kind).Keys &&
      (r.value.1 <==> rec.staleText == "True")
  {
    match KindNamed(rec.typeName)
    case None => Err("list index out of range")
    case Some(k) =>
      match Packets.ParseUuid(rec.uuidText)
      case None => Err("badly formed hexadecimal UUID string")
      case Some(id) =>
        var n0 := Nodes.Node(k, rec.name, id, Nodes.FreshProps(k));
        var n1 :- RestoreInputs(n0, rec.inputs);
        var n2 :- RestoreOutputs(n1, rec.outputs);
        var n3 :- RestoreAttributes(n2, rec.attributes);
        Ok((n3, rec.staleText == "True"))
  }

  // ---------------------------------------------------------------------------
  // A node record restores the node it was written from
  // ---------------------------------------------------------------------------

  /** Every property of `m` agrees with the stored one under its key. */
  predicate AgreeAll(m: map<string, Property>, S: map<string, Property>)
    requires m.Keys == S.Keys
  {
    forall key :: key in S ==> Agrees(m[key], S[key])
  }

  /** Restoring the records of stored inputs turns each named input into the
      stored one and keeps every input that already was. */
  lemma {:induction false} RestoreInputsOf(n: Node, S: map<string, Property>, rs: seq<ValueRecord>)
    requires Nodes.Wf(n) && n.props.Keys == S.Keys && AgreeAll(n.props, S)
    requires forall i :: 0 <= i < |rs| ==>
      Nodes.InputKey(rs[i].name) in S && S[Nodes.InputKey(rs[i].name)].InputProp? &&
      rs[i] == ValueRecordOf(S[Nodes.InputKey(rs[i].name)])
    ensures RestoreInputs(n, rs).Ok?
    ensures AgreeAll(RestoreInputs(n, rs).value.props, S)
    ensures forall key :: key in S && (n.props[key] == S[key] || key in InputKeys(rs)) ==>
      RestoreInputs(n, rs).value.props[key] == S[key]
    decreases |rs|
  {
    if rs != [] {
      var key := Nodes.InputKey(rs[0].name);
      var m := Nodes.SetInputValue(n, rs[0].name, rs[0].value).value;
      var m' := Nodes.SetInputRange(m, rs[0].name, rs[0].seqRange).value;
      AgreesSelf(n.props[key], S[key]);
      assert m'.props == n.props[key := S[key]];
      assert forall i :: 0 <= i < |rs| - 1 ==> rs[1..][i] == rs[i + 1];
      RestoreInputsOf(m', S, rs[1..]);
      forall k | k in InputKeys(rs) && k != key
        ensures k in InputKeys(rs[1..])
      {
        var i :| 0 <= i < |rs| && k == Nodes.InputKey(rs[i].name);
        assert k == Nodes.InputKey(rs[1..][i - 1].name);
      }
    }
  }

  /** The same for outputs: the stored sub-outputs replace the fresh ones
      (which they include), and the stored range comes back. */
  lemma {:induction false} RestoreOutputsOf(n: Node, S: map<string, Property>, rs: seq<FilesRecord>)
    requires Nodes.Wf(n) && n.props.Keys == S.Keys && AgreeAll(n.props, S)
    requires forall i :: 0 <= i < |rs| ==>
      Nodes.OutputKey(rs[i].name) in S && S[Nodes.OutputKey(rs[i].name)].OutputProp? &&
      rs[i] == FilesRecordOf(S[Nodes.OutputKey(rs[i].name)])
    ensures RestoreOutputs(n, rs).Ok?
    ensures AgreeAll(RestoreOutputs(n, rs).value.props, S)
    ensures forall key :: key in S && (n.props[key] == S[key] || key in OutputKeys(rs)) ==>
      RestoreOutputs(n, rs).value.props[key] == S[key]
    decreases |rs|
  {
    if rs != [] {
      var key := Nodes.OutputKey(rs[0].name);
      var p, s := n.props[key], S[key];
      Nodes.KindAtKey(n, key);
      assert p.files + s.files == s.files;
      var m := RestoreOutput(n, rs[0]).value;
      AgreesSelf(p, s);
      assert m.props == n.props[key := s];
      assert forall i :: 0 <= i < |rs| - 1 ==> rs[1..][i] == rs[i + 1];
      RestoreOutputsOf(m, S, rs[1..]);
      forall k | k in OutputKeys(rs) && k != key
        ensures k in OutputKeys(rs[1..])
      {
        var i :| 0 <= i < |rs| && k == Nodes.OutputKey(rs[i].name);
        assert k == Nodes.OutputKey(rs[1..][i - 1].name);
      }
    }
  }

  /** The same for attributes. */
  lemma {:induction false} RestoreAttributesOf(n: Node, S: map<string, Property>, rs: seq<ValueRecord>)
    requires Nodes.Wf(n) && n.props.Keys == S.Keys && AgreeAll(n.props, S) && Nodes.WfProps(S)
    requires forall i :: 0 <= i < |rs| ==>
      rs[i].name in S && S[rs[i].name].AttributeProp? && rs[i] == ValueRecordOf(S[rs[i].name])
    ensures RestoreAttributes(n, rs).Ok?
    ensures AgreeAll(RestoreAttributes(n, rs).value.props, S)
    ensures forall key :: key in S && (n.props[key] == S[key] || key in AttributeKeys(rs)) ==>
      RestoreAttributes(n, rs).value.props[key] == S[key]
    decreases |rs|
  {
    if rs != [] {
      var key := rs[0].name;
      var m' := AttributeStep(n, S, rs[0]);
      assert forall i :: 0 <= i < |rs| - 1 ==> rs[1..][i] == rs[i + 1];
      RestoreAttributesOf(m', S, rs[1..]);
      forall k | k in AttributeKeys(rs) && k != key
        ensures k in AttributeKeys(rs[1..])
      {
        var i :| 0 <= i < |rs| && k == rs[i].name;
        assert k == rs[1..][i - 1].name;
      }
    }
  }

  /** One pass of the `ATTRIBUTES` loop on a stored attribute's record puts
      the stored attribute in place. */
  lemma AttributeStep(n: Node, S: map<string, Property>, rec: ValueRecord) returns (m': Node)
    requires Nodes.Wf(n) && n.props.Keys == S.Keys && AgreeAll(n.props, S) && Nodes.WfProps(S)
    requires rec.name in S && S[rec.name].AttributeProp? && rec == ValueRecordOf(S[rec.name])
    ensures Nodes.SetAttributeValue(n, rec.name, rec.value).Ok?
    ensures m' == Nodes.SetAttributeRange(Nodes.SetAttributeValue(n, rec.name, rec.value).value, rec.name, rec.seqRange).value
    ensures Nodes.Wf(m') && m'.props == n.props[rec.name := S[rec.name]] && AgreeAll(m'.props, S)
  {
    var key := rec.name;
    assert Nodes.KeyedAt(key, S[key]);
    var m := Nodes.SetAttributeValue(n, key, rec.value).value;
    m' := Nodes.SetAttributeRange(m, key, rec.seqRange).value;
    AgreesSelf(n.props[key], S[key]);
    assert m'.props == n.props[key := S[key]];
  }

  /** A node's record lists the record of each declared property, in
      declaration order. */
  lemma RecordParts(n: Node, isStale: bool)
    requires Nodes.Wf(n)
    ensures var rec := NodeRecordOf(n, isStale);
      (forall i :: 0 <= i < |rec.inputs| ==> rec.inputs[i] == InputRecordAt(n, Nodes.InputDecls(n.kind)[i].name)) &&
      (forall i :: 0 <= i < |rec.outputs| ==> rec.outputs[i] == OutputRecordAt(n, Nodes.OutputDecls(n.kind)[i].name)) &&
      (forall i :: 0 <= i < |rec.attributes| ==> rec.attributes[i] == AttributeRecordAt(n, Nodes.AttributeDecls(n.kind)[i].name))
  {
  }

  /** Input records taken from a node for names it has hold what is stored
      under those names. */
  lemma InputRecordsFit(n: Node, ins: seq<Nodes.InputDecl>, rs: seq<ValueRecord>)
    requires Nodes.Wf(n) && |rs| == |ins|
    requires forall i :: 0 <= i < |ins| ==> Nodes.InputKey(ins[i].name) in n.props && rs[i] == InputRecordAt(n, ins[i].name)
    ensures forall i :: 0 <= i < |rs| ==>
      Nodes.InputKey(rs[i].name) in n.props && n.props[Nodes.InputKey(rs[i].name)].InputProp? &&
      rs[i] == ValueRecordOf(n.props[Nodes.InputKey(rs[i].name)])
    ensures InputKeys(rs) == set i | 0 <= i < |ins| :: Nodes.InputKey(ins[i].name)
  {
    assert forall i :: 0 <= i < |ins| ==> rs[i].name == ins[i].name;
  }

  lemma OutputRecordsFit(n: Node, outs: seq<Nodes.OutputDecl>, rs: seq<FilesRecord>)
    requires Nodes.Wf(n) && |rs| == |outs|
    requires forall i :: 0 <= i < |outs| ==> Nodes.OutputKey(outs[i].name) in n.props && rs[i] == OutputRecordAt(n, outs[i].name)
    ensures forall i :: 0 <= i < |rs| ==>
      Nodes.OutputKey(rs[i].name) in n.props && n.props[Nodes.OutputKey(rs[i].name)].OutputProp? &&
      rs[i] == FilesRecordOf(n.props[Nodes.OutputKey(rs[i].name)])
    ensures OutputKeys(rs) == set i | 0 <= i < |outs| :: Nodes.OutputKey(outs[i].name)
  {
    assert forall i :: 0 <= i < |outs| ==> rs[i].name == outs[i].name;
  }

  lemma AttributeRecordsFit(n: Node, attrs: seq<Nodes.AttributeDecl>, rs: seq<ValueRecord>)
    requires Nodes.Wf(n) && |rs| == |attrs|
    requires forall i :: 0 <= i < |attrs| ==> attrs[i].name in n.props && '@' !in attrs[i].name && rs[i] == AttributeRecordAt(n, attrs[i].name)
    ensures forall i :: 0 <= i < |rs| ==>
      rs[i].name in n.props && n.props[rs[i].name].AttributeProp? && rs[i] == ValueRecordOf(n.props[rs[i].name])
    ensures AttributeKeys(rs) == set i | 0 <= i < |attrs| :: attrs[i].name
  {
    assert forall i :: 0 <= i < |attrs| ==> rs[i].name == attrs[i].name;
  }

  /** The declared names are keys of a conforming node. */
  lemma DeclaredPresent(n: Node)
    requires Conforms(n)
    ensures forall i :: 0 <= i < |Nodes.InputDecls(n.kind)| ==> Nodes.InputKey(Nodes.InputDecls(n.kind)[i].name) in n.props
    ensures forall i :: 0 <= i < |Nodes.OutputDecls(n.kind)| ==> Nodes.OutputKey(Nodes.OutputDecls(n.kind)[i].name) in n.props
    ensures forall i :: 0 <= i < |Nodes.AttributeDecls(n.kind)| ==>
      Nodes.AttributeDecls(n.kind)[i].name in n.props && '@' !in Nodes.AttributeDecls(n.kind)[i].name
  {
    FreshKeys(n.kind);
    Nodes.AttributeNamesPlain(n.kind);
  }

  /** The records of a conforming node fit its dictionary and name every
      key of it. */
  lemma NodeRecordFits(n: Node, isStale: bool)
    requires Conforms(n)
    ensures var rec := NodeRecordOf(n, isStale);
      Fit(n.props, rec) && n.props.Keys <= InputKeys(rec.inputs) + OutputKeys(rec.outputs) + AttributeKeys(rec.attributes)
  {
    var rec := NodeRecordOf(n, isStale);
    RecordParts(n, isStale);
    DeclaredPresent(n);
    FreshKeys(n.kind);
    InputRecordsFit(n, Nodes.InputDecls(n.kind), rec.inputs);
    OutputRecordsFit(n, Nodes.OutputDecls(n.kind), rec.outputs);
    AttributeRecordsFit(n, Nodes.AttributeDecls(n.kind), rec.attributes);
  }

  /** Each record holds what the dictionary stores under its name. */
  predicate Fit(S: map<string, Property>, rec: NodeRecord) {
    (forall i :: 0 <= i < |rec.inputs| ==>
      Nodes.InputKey(rec.inputs[i].name) in S && S[Nodes.InputKey(rec.inputs[i].name)].InputProp? &&
      rec.inputs[i] == ValueRecordOf(S[Nodes.InputKey(rec.inputs[i].name)])) &&
    (forall i :: 0 <= i < |rec.outputs| ==>
      Nodes.OutputKey(rec.outputs[i].name) in S && S[Nodes.OutputKey(rec.outputs[i].name)].OutputProp? &&
      rec.outputs[i] == FilesRecordOf(S[Nodes.OutputKey(rec.outputs[i].name)])) &&
    (forall i :: 0 <= i < |rec.attributes| ==>
      rec.attributes[i].name in S && S[rec.attributes[i].name].AttributeProp? &&
      rec.attributes[i] == ValueRecordOf(S[rec.attributes[i].name]))
  }

  /** The three loops of a node's load, on records that fit and name every
      key, turn a dictionary that agrees with the stored one into it. */
  lemma RestorePropsOf(n0: Node, S: map<string, Property>, rec: NodeRecord)
    requires Nodes.Wf(n0) && Nodes.WfProps(S) && n0.props.Keys == S.Keys && AgreeAll(n0.props, S)
    requires Fit(S, rec) && S.Keys <= InputKeys(rec.inputs) + OutputKeys(rec.outputs) + AttributeKeys(rec.attributes)
    ensures RestoreInputs(n0, rec.inputs).Ok?
    ensures var n1 := RestoreInputs(n0, rec.inputs).value;
      RestoreOutputs(n1, rec.outputs).Ok? &&
      var n2 := RestoreOutputs(n1, rec.outputs).value;
      RestoreAttributes(n2, rec.attributes).Ok? &&
      RestoreAttributes(n2, rec.attributes).value.props == S
  {
    RestoreInputsOf(n0, S, rec.inputs);
    var n1 := RestoreInputs(n0, rec.inputs).value;
    RestoreOutputsOf(n1, S, rec.outputs);
    var n2 := RestoreOutputs(n1, rec.outputs).value;
    RestoreAttributesOf(n2, S, rec.attributes);
    var n3 := RestoreAttributes(n2, rec.attributes).value;
    forall key | key in S
      ensures n3.props[key] == S[key]
    {
      if key in InputKeys(rec.inputs) {
        assert n1.props[key] == S[key];
        assert n2.props[key] == S[key];
      } else if key in OutputKeys(rec.outputs) {
        assert n2.props[key] == S[key];
      }
    }
    assert n3.props.Keys == S.Keys;
    SameMap(n3.props, S);
  }

  /** Two maps with the same keys and the same value at each key are equal. */
  lemma SameMap<K, V>(a: map<K, V>, b: map<K, V>)
    requires a.Keys == b.Keys && forall k :: k in b ==> a[k] == b[k]
    ensures a == b
  {
  }

  /** Rewriting one property so that it still agrees with its declaration
      keeps a node conforming. */
  lemma ConformsAfter(n: Node, m: Node, key: string)
    requires Conforms(n) && Nodes.Rewritten(n, m) && key in n.props
    requires forall k :: k in n.props && k != key ==> m.props[k] == n.props[k]
    requires Agrees(Nodes.FreshProps(n.kind)[key], m.props[key])
    ensures Conforms(m)
  {
  }

  /** The input setters keep a node conforming: they change a value or a
      range. */
  lemma InputSettersConform(n: Node, name: string, value: string, range: Nodes.Range)
    requires Conforms(n)
    ensures var r := Nodes.SetInputValue(n, name, value); r.Ok? ==> Conforms(r.value)
    ensures var r := Nodes.SetInputRange(n, name, range); r.Ok? ==> Conforms(r.value)
  {
    var key := Nodes.InputKey(name);
    if key in n.props {
      ConformsAfter(n, Nodes.SetInputValue(n, name, value).value, key);
      ConformsAfter(n, Nodes.SetInputRange(n, name, range).value, key);
    }
  }

  /** Setting a sub-output keeps a node conforming: an output's dictionary
      only gains sub-outputs. */
  lemma OutputValueConforms(n: Node, name: string, sub: string, value: string)
    requires Conforms(n)
    ensures var r := Nodes.SetOutputValue(n, name, sub, value); r.Ok? ==> Conforms(r.value)
  {
    var key := Nodes.OutputKey(name);
    if key in n.props {
      var m := Nodes.SetOutputValue(n, name, sub, value).value;
      var p := n.props[key];
      assert m.props[key] == Nodes.OutputProp(p.name, p.packetType, p.files[sub := value], p.seqRange);
      ConformsAfter(n, m, key);
    }
  }

  /** Setting an output's range keeps a node conforming. */
  lemma OutputRangeConforms(n: Node, name: string, range: Nodes.Range)
    requires Conforms(n)
    ensures var r := Nodes.SetOutputRange(n, name, range); r.Ok? ==> Conforms(r.value)
  {
    var key := Nodes.OutputKey(name);
    if key in n.props {
      var m := Nodes.SetOutputRange(n, name, range).value;
      var p := n.props[key];
      assert Nodes.FreshProps(n.kind)[key].seqRange.None?;
      assert m.props[key] == Nodes.OutputProp(p.name, p.packetType, p.files, range);
      ConformsAfter(n, m, key);
    }
  }

  /** The attribute setters keep a node conforming. */
  lemma AttributeSettersConform(n: Node, name: string, value: string, range: Nodes.Range)
    requires Conforms(n)
    ensures var r := Nodes.SetAttributeValue(n, name, value); r.Ok? ==> Conforms(r.value)
    ensures var r := Nodes.SetAttributeRange(n, name, range); r.Ok? ==> Conforms(r.value)
  {
    if name in n.props && '@' !in name {
      ConformsAfter(n, Nodes.SetAttributeValue(n, name, value).value, name);
      ConformsAfter(n, Nodes.SetAttributeRange(n, name, range).value, name);
    }
  }

  /** Loading the record `snapshot` writes for a node gives back that node
      and its stale flag: kind, name, UUID, every property's value and
      range. */
  lemma RestoreNodeRecord(n: Node, isStale: bool)
    requires Conforms(n)
    ensures RestoreNode(NodeRecordOf(n, isStale)) == Ok((n, isStale))
  {
    var rec := NodeRecordOf(n, isStale);
    KindNamedClassName(n.kind);
    Packets.UuidRoundTrip(n.uuid);
    NodeRecordFits(n, isStale);
    RestoreNodeOf(rec, n.kind, n.uuid, n.props);
  }

  /** A record naming a class and a UUID, whose property records fit a
      dictionary agreeing with the class's declarations, loads into the
      node of that class, name, UUID and dictionary. */
  lemma RestoreNodeOf(rec: NodeRecord, k: Nodes.Kind, id: Uuid, S: map<string, Property>)
    requires KindNamed(rec.typeName) == Some(k) && Packets.ParseUuid(rec.uuidText) == Some(id)
    requires Nodes.WfProps(S) && Nodes.FreshProps(k).Keys == S.Keys && AgreeAll(Nodes.FreshProps(k), S)
    requires Fit(S, rec) && S.Keys <= InputKeys(rec.inputs) + OutputKeys(rec.outputs) + AttributeKeys(rec.attributes)
    ensures RestoreNode(rec) == Ok((Nodes.Node(k, rec.name, id, S), rec.staleText == "True"))
  {
    var n0 := Nodes.Node(k, rec.name, id, Nodes.FreshProps(k));
    RestorePropsOf(n0, S, rec);
    var n1 := RestoreInputs(n0, rec.inputs).value;
    var n2 := RestoreOutputs(n1, rec.outputs).value;
    var n3 := RestoreAttributes(n2, rec.attributes).value;
    assert n3 == Nodes.Node(k, rec.name, id, S);
  }

  // ---------------------------------------------------------------------------
  // The whole graph
  // ---------------------------------------------------------------------------

  /** `order` meets every item of `S` exactly once: the order in which a
      loop over a set or a dictionary visits it. */
  ghost predicate Lists<T(!new)>(order: seq<T>, S: set<T>) {
    (forall i, j :: 0 <= i < j < |order| ==> order[i] != order[j]) &&
    (forall x :: x in order <==> x in S)
  }

  /** The group names in the order the group dictionary is visited. */
  function GroupNames<T>(order: seq<(string, seq<T>)>): (r: seq<string>)
    ensures |r| == |order| && forall i :: 0 <= i < |order| ==> r[i] == order[i].0
  {
    seq(|order|, i requires 0 <= i < |order| => order[i].0)
  }

  /** `order` visits every group once, each with its members in some
      order. */
  ghost predicate ListsGroups<T(!new)>(order: seq<(string, seq<T>)>, groups: map<string, set<T>>) {
    Lists(GroupNames(order), groups.Keys) &&
    forall i :: 0 <= i < |order| ==> order[i].0 in groups && Lists(order[i].1, groups[order[i].0])
  }

  /** The `NODES` list: one record per node, in the given order. */
  function NodeRecords(g: Graph, order: seq<Uuid>): (r: seq<NodeRecord>)
    requires Dag.Valid(g) && forall i :: 0 <= i < |order| ==> order[i] in g.nodes && order[i] in g.stale
    ensures |r| == |order|
    ensures forall i :: 0 <= i < |order| ==>
      r[i].name == g.nodes[order[i]].name && r[i].uuidText == Packets.UuidText(order[i])
  {
    seq(|order|, i requires 0 <= i < |order| => NodeRecordOf(g.nodes[order[i]], g.stale[order[i]]))
  }

  /** The `EDGES` list: FROM is the provider, TO the consumer. */
  function EdgeRecords(order: seq<(Uuid, Uuid)>): (r: seq<EdgeRecord>)
    ensures |r| == |order|
    ensures forall i :: 0 <= i < |order| ==>
      r[i].from == Packets.UuidText(order[i].1) && r[i].to == Packets.UuidText(order[i].0)
  {
    seq(|order|, i requires 0 <= i < |order| => EdgeRecord(Packets.UuidText(order[i].1), Packets.UuidText(order[i].0)))
  }

  /** The UUID texts of a list of nodes. */
  function UuidTexts(us: seq<Uuid>): (r: seq<string>)
    ensures |r| == |us| && forall i :: 0 <= i < |us| ==> r[i] == Packets.UuidText(us[i])
  {
    seq(|us|, i requires 0 <= i < |us| => Packets.UuidText(us[i]))
  }

  /** The `GROUPS` list. */
  function GroupRecords(order: seq<(string, seq<Uuid>)>): (r: seq<GroupRecord>)
    ensures |r| == |order|
    ensures forall i :: 0 <= i < |order| ==> r[i].name == order[i].0 && r[i].nodes == UuidTexts(order[i].1)
  {
    seq(|order|, i requires 0 <= i < |order| => GroupRecord(order[i].0, UuidTexts(order[i].1)))
  }

  /** `snapshot()`: every node, edge and group of the graph written out in
      the order the loops visit them. A node needs a stale entry, which
      `addNode` always makes. */
  function Snapshot(g: Graph, nodeOrder: seq<Uuid>, edgeOrder: seq<(Uuid, Uuid)>,
                    groupOrder: seq<(string, seq<Uuid>)>): (s: SnapshotDict)
    requires Dag.Valid(g) && g.nodes.Keys <= g.stale.Keys
    requires Lists(nodeOrder, g.nodes.Keys) && Lists(edgeOrder, g.edges) && ListsGroups(groupOrder, g.groups)
    ensures |s.nodes| == |nodeOrder| && |s.edges| == |edgeOrder| && |s.groups| == |groupOrder|
    ensures forall i :: 0 <= i < |s.nodes| ==>
      Packets.ParseUuid(s.nodes[i].uuidText) == Some(nodeOrder[i]) && s.nodes[i].name == g.nodes[nodeOrder[i]].name
  {
    var s := SnapshotDict(NodeRecords(g, nodeOrder), EdgeRecords(edgeOrder), GroupRecords(groupOrder));
    assert forall i :: 0 <= i < |s.nodes| ==> Packets.ParseUuid(s.nodes[i].uuidText) == Some(nodeOrder[i]) by {
      forall i | 0 <= i < |s.nodes| {
        Packets.UuidRoundTrip(nodeOrder[i]);
      }
    }
    s
  }

  /** The `NODES` loop of `restoreSnapshot`, record by record into `g`. A
      record naming no class, carrying a malformed UUID or repeating a
      name stops the load; the nodes added before it stay. */
  function RestoreNodes(g: Graph, rs: seq<NodeRecord>): (r: (Result<()>, Graph))
    requires Dag.Valid(g)
    ensures Dag.Valid(r.1) && r.1.edges == g.edges && r.1.groups == g.groups
    ensures g.nodes.Keys <= r.1.nodes.Keys
    ensures Dag.Acyclic(g) ==> Dag.Acyclic(r.1)
    decreases |rs|
  {
    if rs == [] then (Ok(()), g)
    else match RestoreNode(rs[0])
      case Err(e) => (Err(e), g)
      case Ok((n, isStale)) =>
        match Dag.AddNode(g, n, isStale)
        case Err(e) => (Err(e), g)
        case Ok(h) =>
          Dag.AddNodeValid(g, n, isStale);
          RestoreNodes(h, rs[1..])
  }

  /** The `EDGES` loop: each record's FROM text names the provider and its
      TO text the consumer. A malformed UUID, a node that is not there, a
      repeated edge or a cycle stops the load; as with `connectNodes`, the
      edge that closed a cycle stays in. */
  ghost function RestoreEdges(g: Graph, es: seq<EdgeRecord>): (r: (Result<()>, Graph))
    requires Dag.Valid(g)
    ensures Dag.Valid(r.1) && r.1.nodes == g.nodes && r.1.stale == g.stale && r.1.groups == g.groups
    ensures g.edges <= r.1.edges
    ensures Dag.Acyclic(g) && r.0.Ok? ==> Dag.Acyclic(r.1)
    decreases |es|
  {
    if es == [] then (Ok(()), g)
    else match (Packets.ParseUuid(es[0].from), Packets.ParseUuid(es[0].to))
      case (None, _) => (Err("badly formed hexadecimal UUID string"), g)
      case (_, None) => (Err("badly formed hexadecimal UUID string"), g)
      case (Some(provider), Some(consumer)) =>
        Dag.ConnectValid(g, provider, consumer);
        var (outcome, h) := Dag.Connect(g, provider, consumer);
        if outcome.Err? then (outcome, h) else RestoreEdges(h, es[1..])
  }

  /** The members of a `GROUPS` record: every text must parse as a UUID,
      and the nodes it names are looked up among the graph's `nodes`. */
  function MembersOf(nodes: set<Uuid>, texts: seq<string>): (r: Result<set<Uuid>>)
    ensures r.Ok? <==> forall i :: 0 <= i < |texts| ==> Packets.ParseUuid(texts[i]).Some?
    ensures r.Ok? ==> forall u :: u in r.value <==>
      u in nodes && exists i :: 0 <= i < |texts| && Packets.ParseUuid(texts[i]) == Some(u)
    decreases |texts|
  {
    if texts == [] then Ok({})
    else match Packets.ParseUuid(texts[0])
      case None => Err("badly formed hexadecimal UUID string")
      case Some(u) =>
        var rest := MembersOf(nodes, texts[1..]);
        assert forall i :: 1 <= i < |texts| ==> texts[i] == texts[1..][i - 1];
        if rest.Err? then rest
        else Ok(if u in nodes then {u} + rest.value else rest.value)
  }

  /** The `GROUPS` loop: each record sets its name's group, a later record
      of the same name replacing an earlier one. */
  function RestoreGroups(g: Graph, gs: seq<GroupRecord>): (r: (Result<()>, Graph))
    ensures r.1.nodes == g.nodes && r.1.edges == g.edges && r.1.stale == g.stale
    ensures g.groups.Keys <= r.1.groups.Keys
    decreases |gs|
  {
    if gs == [] then (Ok(()), g)
    else match MembersOf(g.nodes.Keys, gs[0].nodes)
      case Err(e) => (Err(e), g)
      case Ok(members) => RestoreGroups(g.(groups := g.groups[gs[0].name := members]), gs[1..])
  }

  /** `restoreSnapshot(snapshotDict)`: the graph is cleared, then the nodes,
      the edges and the groups are loaded in turn; the first failure stops
      the load and leaves what was loaded so far. A load that succeeds
      ends with a valid acyclic graph. */
  ghost function Restore(s: SnapshotDict): (r: (Result<()>, Graph))
    ensures Dag.Valid(r.1)
    ensures r.0.Ok? ==> Dag.Acyclic(r.1)
  {
    var (o1, g1) := RestoreNodes(Dag.EmptyGraph(), s.nodes);
    if o1.Err? then (o1, g1)
    else
      var (o2, g2) := RestoreEdges(g1, s.edges);
      if o2.Err? then (o2, g2)
      else RestoreGroups(g2, s.groups)
  }

  // ---------------------------------------------------------------------------
  // Restoring a snapshot gives the graph back
  // ---------------------------------------------------------------------------

  /** No two nodes share a non-empty name, as `addNode` ensures. */
  ghost predicate NamesDistinct(g: Graph) {
    forall a, b :: a in g.nodes && b in g.nodes && a != b && g.nodes[a].name != "" ==>
      g.nodes[a].name != g.nodes[b].name
  }

  /** `addNode` keeps non-empty names apart. */
  lemma AddNodeNamesDistinct(g: Graph, n: Node, isStale: bool)
    requires NamesDistinct(g) && Dag.AddNode(g, n, isStale).Ok?
    ensures NamesDistinct(Dag.AddNode(g, n, isStale).value)
  {
    var h := Dag.AddNode(g, n, isStale).value;
    forall a, b | a in h.nodes && b in h.nodes && a != b && h.nodes[a].name != ""
      ensures h.nodes[a].name != h.nodes[b].name
    {
      if a !in g.nodes {
        assert b in g.nodes && b !in Dag.NodesNamed(g, n.name);
      } else if b !in g.nodes {
        assert a !in Dag.NodesNamed(g, n.name);
      }
    }
  }

  /** The graph while its nodes load: those in `K`, no edges, no groups. */
  function NodesOnly(g: Graph, K: set<Uuid>): Graph {
    Dag.Graph(Restrict(g.nodes, K), {}, Restrict(g.stale, K), map[])
  }

  function Restrict<K, V>(m: map<K, V>, A: set<K>): (r: map<K, V>)
    ensures r.Keys == m.Keys * A && forall k :: k in r ==> r[k] == m[k]
  {
    map k | k in A && k in m :: m[k]
  }

  lemma RestrictAll<K, V>(m: map<K, V>, A: set<K>)
    requires m.Keys <= A
    ensures Restrict(m, A) == m
  {
  }

  lemma RestrictAdd<K, V>(m: map<K, V>, A: set<K>, u: K)
    requires u in m && u !in A
    ensures Restrict(m, A + {u}) == Restrict(m, A)[u := m[u]]
  {
  }

  /** The items before position `i` of a list that visits `S` once each:
      the next item is new, and at the end they are all of `S`. */
  lemma PrefixElems<T(!new)>(order: seq<T>, i: nat, S: set<T>)
    requires Lists(order, S) && i <= |order|
    ensures Dag.Elems(order[..i]) <= S
    ensures i < |order| ==> order[i] !in Dag.Elems(order[..i]) && Dag.Elems(order[..i + 1]) == Dag.Elems(order[..i]) + {order[i]}
    ensures i == |order| ==> Dag.Elems(order[..i]) == S
  {
    if i < |order| {
      assert order[..i + 1] == order[..i] + [order[i]];
    } else {
      assert order[..i] == order;
    }
  }

  /** Adding one more node of `g` to the graph holding some of its nodes
      gives the graph holding both. */
  lemma AddNodeStep(g: Graph, K: set<Uuid>, u: Uuid)
    requires Dag.Valid(g) && g.stale.Keys == g.nodes.Keys && NamesDistinct(g)
    requires u in g.nodes && u !in K && K <= g.nodes.Keys
    ensures Dag.AddNode(NodesOnly(g, K), g.nodes[u], g.stale[u]) == Ok(NodesOnly(g, K + {u}))
  {
    var P := NodesOnly(g, K);
    var n := g.nodes[u];
    assert !Dag.HasNodeNamed(P, n.name) by {
      forall v | v in P.nodes ensures P.nodes[v].name != n.name || n.name == "" {
        assert v in g.nodes && v != u;
      }
    }
    RestrictAdd(g.nodes, K, u);
    RestrictAdd(g.stale, K, u);
  }

  /** Loading the records of the nodes from position `i` on, into the graph
      holding the nodes before `i`, adds them all; `rs` are records that
      load back into the nodes of `order`. */
  lemma {:induction false} RestoreNodesOf(g: Graph, order: seq<Uuid>, rs: seq<NodeRecord>, i: nat)
    requires Dag.Valid(g) && g.stale.Keys == g.nodes.Keys && NamesDistinct(g)
    requires Lists(order, g.nodes.Keys) && i <= |order| && |rs| == |order|
    requires forall j :: 0 <= j < |order| ==> RestoreNode(rs[j]) == Ok((g.nodes[order[j]], g.stale[order[j]]))
    ensures RestoreNodes(NodesOnly(g, Dag.Elems(order[..i])), rs[i..]) == (Ok(()), NodesOnly(g, g.nodes.Keys))
    decreases |order| - i
  {
    if i == |order| {
      PrefixElems(order, i, g.nodes.Keys);
    } else {
      var u := order[i];
      var K := Dag.Elems(order[..i]);
      var tail := rs[i..];
      assert tail[0] == rs[i] && tail[1..] == rs[i + 1..];
      PrefixElems(order, i, g.nodes.Keys);
      var P := NodesOnly(g, K);
      AddNodeStep(g, K, u);
      RestoreNodesStep(P, tail);
      assert RestoreNodes(P, tail) == RestoreNodes(NodesOnly(g, K + {u}), rs[i + 1..]);
      RestoreNodesOf(g, order, rs, i + 1);
    }
  }

  /** Connecting one more edge of an acyclic graph to the graph holding
      some of its edges succeeds and gives the graph holding both. */
  lemma ConnectStep(g: Graph, E: set<(Uuid, Uuid)>, e: (Uuid, Uuid))
    requires Dag.Valid(g) && Dag.Acyclic(g)
    requires e in g.edges && e !in E && E <= g.edges
    ensures Dag.Connect(g.(edges := E), e.1, e.0) == (Ok(()), g.(edges := E + {e}))
  {
    var rank :| Closure.IsRanking(rank, g.nodes.Keys, g.edges);
    Closure.AcyclicSubset(g.nodes.Keys, g.edges, g.nodes.Keys, E + {e}, rank);
  }

  /** Loading the edge records from position `i` on, into the graph holding
      the edges before `i`, connects them all; `es` are records whose texts
      parse back into the provider and the consumer of each edge. */
  lemma {:induction false} RestoreEdgesOf(g: Graph, order: seq<(Uuid, Uuid)>, es: seq<EdgeRecord>, i: nat)
    requires Dag.Valid(g) && Dag.Acyclic(g)
    requires Lists(order, g.edges) && i <= |order| && |es| == |order|
    requires forall j :: 0 <= j < |order| ==>
      Packets.ParseUuid(es[j].from) == Some(order[j].1) && Packets.ParseUuid(es[j].to) == Some(order[j].0)
    ensures Dag.Valid(g.(edges := Dag.Elems(order[..i])))
    ensures RestoreEdges(g.(edges := Dag.Elems(order[..i])), es[i..]) == (Ok(()), g)
    decreases |order| - i
  {
    PrefixElems(order, i, g.edges);
    if i == |order| {
      assert g.(edges := Dag.Elems(order[..i])) == g;
    } else {
      var e := order[i];
      assert es[i..][0] == es[i];
      assert es[i..][1..] == es[i + 1..];
      ConnectStep(g, Dag.Elems(order[..i]), e);
      RestoreEdgesOf(g, order, es, i + 1);
    }
  }

  /** The group dictionary after setting the groups of `order` one after
      the other. */
  function GroupsOf<T(!new)>(order: seq<(string, seq<T>)>): (m: map<string, set<T>>)
    ensures forall name :: name in m <==> name in GroupNames(order)
    decreases |order|
  {
    if order == [] then map[]
    else
      var last := order[|order| - 1];
      var m := GroupsOf(order[..|order| - 1]);
      assert GroupNames(order) == GroupNames(order[..|order| - 1]) + [last.0];
      m[last.0 := Dag.Elems(last.1)]
  }

  /** Setting the listed groups one by one, names never repeating, builds
      the group dictionary they list. */
  lemma {:induction false} GroupsOfListed<T(!new)>(order: seq<(string, seq<T>)>, groups: map<string, set<T>>, i: nat)
    requires ListsGroups(order, groups) && i <= |order|
    ensures GroupsOf(order[..i]) == Restrict(groups, Dag.Elems(GroupNames(order)[..i]))
  {
    PrefixElems(GroupNames(order), i, groups.Keys);
    if i > 0 {
      GroupsOfListed(order, groups, i - 1);
      PrefixElems(GroupNames(order), i - 1, groups.Keys);
      var name := order[i - 1].0;
      GroupsOfLast(order[..i]);
      assert order[..i][..i - 1] == order[..i - 1] && order[..i][i - 1] == order[i - 1];
      assert groups[name] == Dag.Elems(order[i - 1].1);
      RestrictAdd(groups, Dag.Elems(GroupNames(order)[..i - 1]), name);
    }
  }

  lemma GroupsOfLast<T(!new)>(order: seq<(string, seq<T>)>)
    requires order != []
    ensures GroupsOf(order) == GroupsOf(order[..|order| - 1])[order[|order| - 1].0 := Dag.Elems(order[|order| - 1].1)]
  {
  }

  /** The group dictionary of a listing is the listed one. */
  lemma GroupsOfAll<T(!new)>(order: seq<(string, seq<T>)>, groups: map<string, set<T>>)
    requires ListsGroups(order, groups)
    ensures GroupsOf(order) == groups
  {
    GroupsOfListed(order, groups, |order|);
    PrefixElems(GroupNames(order), |order|, groups.Keys);
    assert order[..|order|] == order;
  }

  /** The member texts `snapshot` writes for nodes of the graph load back
      into those nodes. */
  lemma MembersOfTexts(g: Graph, us: seq<Uuid>)
    requires forall i :: 0 <= i < |us| ==> us[i] in g.nodes
    ensures MembersOf(g.nodes.Keys, UuidTexts(us)) == Ok(Dag.Elems(us))
  {
    var texts := UuidTexts(us);
    forall i | 0 <= i < |us|
      ensures Packets.ParseUuid(texts[i]) == Some(us[i])
    {
      Packets.UuidRoundTrip(us[i]);
    }
    var r := MembersOf(g.nodes.Keys, texts).value;
    forall u
      ensures u in r <==> u in Dag.Elems(us)
    {
      if u in us {
        var i :| 0 <= i < |us| && us[i] == u;
        assert Packets.ParseUuid(texts[i]) == Some(u);
      }
      if u in r {
        var i :| 0 <= i < |texts| && Packets.ParseUuid(texts[i]) == Some(u);
        assert us[i] == u;
      }
    }
    assert r == Dag.Elems(us);
  }

  /** Loading the group records from position `i` on, into the graph holding
      the groups before `i`, sets them all; `gs` are records with the
      listed names whose members load back into the listed sets. */
  lemma {:induction false} RestoreGroupsOf(g: Graph, order: seq<(string, seq<Uuid>)>, gs: seq<GroupRecord>, i: nat)
    requires i <= |order| && |gs| == |order|
    requires forall j :: 0 <= j < |order| ==>
      gs[j].name == order[j].0 && MembersOf(g.nodes.Keys, gs[j].nodes) == Ok(Dag.Elems(order[j].1))
    ensures RestoreGroups(g.(groups := GroupsOf(order[..i])), gs[i..]) == (Ok(()), g.(groups := GroupsOf(order)))
    decreases |order| - i
  {
    if i == |order| {
      assert order[..i] == order;
    } else {
      assert gs[i..][0] == gs[i];
      assert gs[i..][1..] == gs[i + 1..];
      assert order[..i + 1][..i] == order[..i];
      RestoreGroupsOf(g, order, gs, i + 1);
    }
  }

  /** The `NODES` records of a graph load into the cleared graph as its
      nodes with their stale flags. */
  lemma RestoreNodesAll(g: Graph, nodeOrder: seq<Uuid>)
    requires Dag.Valid(g) && g.stale.Keys == g.nodes.Keys && NamesDistinct(g)
    requires forall u :: u in g.nodes ==> Conforms(g.nodes[u])
    requires Lists(nodeOrder, g.nodes.Keys)
    ensures RestoreNodes(Dag.EmptyGraph(), NodeRecords(g, nodeOrder)) == (Ok(()), g.(edges := {}, groups := map[]))
  {
    var rs := NodeRecords(g, nodeOrder);
    forall j | 0 <= j < |nodeOrder|
      ensures RestoreNode(rs[j]) == Ok((g.nodes[nodeOrder[j]], g.stale[nodeOrder[j]]))
    {
      RestoreNodeRecord(g.nodes[nodeOrder[j]], g.stale[nodeOrder[j]]);
    }
    PrefixElems(nodeOrder, 0, g.nodes.Keys);
    assert NodesOnly(g, Dag.Elems(nodeOrder[..0])) == Dag.EmptyGraph();
    RestoreNodesOf(g, nodeOrder, rs, 0);
    assert rs[0..] == rs;
    RestrictAll(g.nodes, g.nodes.Keys);
    RestrictAll(g.stale, g.nodes.Keys);
  }

  /** The `EDGES` records of an acyclic graph connect, in the graph holding
      its nodes, exactly its edges. */
  lemma RestoreEdgesAll(g: Graph, edgeOrder: seq<(Uuid, Uuid)>)
    requires Dag.Valid(g) && Dag.Acyclic(g) && Lists(edgeOrder, g.edges)
    ensures RestoreEdges(g.(edges := {}), EdgeRecords(edgeOrder)) == (Ok(()), g)
  {
    var es := EdgeRecords(edgeOrder);
    forall j | 0 <= j < |edgeOrder|
      ensures Packets.ParseUuid(es[j].from) == Some(edgeOrder[j].1)
      ensures Packets.ParseUuid(es[j].to) == Some(edgeOrder[j].0)
    {
      Packets.UuidRoundTrip(edgeOrder[j].1);
      Packets.UuidRoundTrip(edgeOrder[j].0);
    }
    assert g.(edges := Dag.Elems(edgeOrder[..0])) == g.(edges := {});
    RestoreEdgesOf(g, edgeOrder, es, 0);
    assert es[0..] == es;
  }

  /** The `GROUPS` records of a graph whose groups name its nodes set, in
      the graph without groups, exactly its groups. */
  lemma RestoreGroupsAll(g: Graph, groupOrder: seq<(string, seq<Uuid>)>)
    requires forall name :: name in g.groups ==> g.groups[name] <= g.nodes.Keys
    requires ListsGroups(groupOrder, g.groups)
    ensures RestoreGroups(g.(groups := map[]), GroupRecords(groupOrder)) == (Ok(()), g)
  {
    var gs := GroupRecords(groupOrder);
    forall j | 0 <= j < |groupOrder|
      ensures gs[j].name == groupOrder[j].0
      ensures MembersOf(g.nodes.Keys, gs[j].nodes) == Ok(Dag.Elems(groupOrder[j].1))
    {
      MembersOfTexts(g, groupOrder[j].1);
    }
    assert g.(groups := GroupsOf(groupOrder[..0])) == g.(groups := map[]);
    RestoreGroupsOf(g, groupOrder, gs, 0);
    assert gs[0..] == gs;
    GroupsOfAll(groupOrder, g.groups);
  }

  /** Restoring the snapshot of a graph gives the graph back: the same
      nodes (kind, name, UUID, every property's value and range), the same
      stale flags, the same edges (FROM is the provider, TO the consumer)
      and the same groups. The graph must be one that `restoreSnapshot`
      can rebuild: valid and acyclic, a stale flag for exactly its nodes,
      no two nodes sharing a non-empty name, every node with the
      properties its kind declares, and groups that name nodes of the
      graph. */
  lemma SnapshotRoundTrip(g: Graph, nodeOrder: seq<Uuid>, edgeOrder: seq<(Uuid, Uuid)>,
                          groupOrder: seq<(string, seq<Uuid>)>)
    requires Dag.Valid(g) && Dag.Acyclic(g) && g.stale.Keys == g.nodes.Keys && NamesDistinct(g)
    requires forall u :: u in g.nodes ==> Conforms(g.nodes[u])
    requires forall name :: name in g.groups ==> g.groups[name] <= g.nodes.Keys
    requires Lists(nodeOrder, g.nodes.Keys) && Lists(edgeOrder, g.edges) && ListsGroups(groupOrder, g.groups)
    ensures Restore(Snapshot(g, nodeOrder, edgeOrder, groupOrder)) == (Ok(()), g)
  {
    RestoreNodesAll(g, nodeOrder);
    var g0 := g.(groups := map[]);
    RestoreEdgesAll(g0, edgeOrder);
    assert g0.(edges := {}) == g.(edges := {}, groups := map[]);
    RestoreGroupsAll(g, groupOrder);
  }

  // ---------------------------------------------------------------------------
  // Loading into the graph object
  // ---------------------------------------------------------------------------

  /** `DAG.restoreSnapshot(snapshotDict)` on the graph object: its network,
      stale dictionary and group dictionary are cleared and refilled in
      place, record by record. It fails exactly when the load fails, and
      either way leaves the state the load describes (the error message of
      a refused name is not compared). */
  method RestoreSnapshot(dag: Dag.Dag, s: SnapshotDict) returns (outcome: Result<()>)
    modifies dag
    ensures outcome.Ok? <==> Restore(s).0.Ok?
    ensures dag.Value() == Restore(s).1
  {
    dag.nodes := map[];
    dag.edges := {};
    dag.stale := map[];
    dag.groups := map[];
    outcome := LoadNodes(dag, s.nodes);
    if outcome.Err? {
      return;
    }
    outcome := LoadEdges(dag, s.edges);
    if outcome.Err? {
      return;
    }
    outcome := LoadGroups(dag, s.groups);
  }

  /** The `NODES` loop on the graph object. */
  method LoadNodes(dag: Dag.Dag, rs: seq<NodeRecord>) returns (outcome: Result<()>)
    requires Dag.Valid(dag.Value())
    modifies dag
    ensures outcome.Ok? <==> RestoreNodes(old(dag.Value()), rs).0.Ok?
    ensures dag.Value() == RestoreNodes(old(dag.Value()), rs).1
  {
    ghost var loaded := RestoreNodes(dag.Value(), rs);
    var i := 0;
    while i < |rs|
      invariant 0 <= i <= |rs|
      invariant Dag.Valid(dag.Value())
      invariant RestoreNodes(dag.Value(), rs[i..]) == loaded
    {
      assert rs[i..][1..] == rs[i + 1..];
      RestoreNodesStep(dag.Value(), rs[i..]);
      var r := RestoreNode(rs[i]);
      if r.Err? {
        return Err(r.reason);
      }
      var (n, isStale) := r.value;
      outcome := dag.Add(n, isStale);
      if outcome.Err? {
        return;
      }
      i := i + 1;
    }
    return Ok(());
  }

  /** One step of the `NODES` loop. */
  lemma RestoreNodesStep(g: Graph, rs: seq<NodeRecord>)
    requires Dag.Valid(g) && rs != []
    ensures RestoreNode(rs[0]).Err? ==> RestoreNodes(g, rs) == (Err(RestoreNode(rs[0]).reason), g)
    ensures RestoreNode(rs[0]).Ok? ==>
      var (n, isStale) := RestoreNode(rs[0]).value;
      (Dag.AddNode(g, n, isStale).Err? ==> RestoreNodes(g, rs).0.Err? && RestoreNodes(g, rs).1 == g) &&
      (Dag.AddNode(g, n, isStale).Ok? ==>
        Dag.Valid(Dag.AddNode(g, n, isStale).value) &&
        RestoreNodes(g, rs) == RestoreNodes(Dag.AddNode(g, n, isStale).value, rs[1..]))
  {
    if RestoreNode(rs[0]).Ok? {
      var (n, isStale) := RestoreNode(rs[0]).value;
      if Dag.AddNode(g, n, isStale).Ok? {
        Dag.AddNodeValid(g, n, isStale);
      }
    }
  }

  /** The `EDGES` loop on the graph object. */
  method LoadEdges(dag: Dag.Dag, es: seq<EdgeRecord>) returns (outcome: Result<()>)
    requires Dag.Valid(dag.Value())
    modifies dag
    ensures (outcome, dag.Value()) == RestoreEdges(old(dag.Value()), es)
  {
    ghost var connected := RestoreEdges(dag.Value(), es);
    var i := 0;
    while i < |es|
      invariant 0 <= i <= |es|
      invariant Dag.Valid(dag.Value())
      invariant RestoreEdges(dag.Value(), es[i..]) == connected
    {
      assert es[i..][1..] == es[i + 1..];
      var provider := Packets.ParseUuid(es[i].from);
      var consumer := Packets.ParseUuid(es[i].to);
      if provider.None? || consumer.None? {
        return Err("badly formed hexadecimal UUID string");
      }
      Dag.ConnectValid(dag.Value(), provider.value, consumer.value);
      outcome := dag.ConnectNodes(provider.value, consumer.value);
      if outcome.Err? {
        return;
      }
      i := i + 1;
    }
    return Ok(());
  }

  /** The `GROUPS` loop on the graph object. */
  method LoadGroups(dag: Dag.Dag, gs: seq<GroupRecord>) returns (outcome: Result<()>)
    modifies dag
    ensures (outcome, dag.Value()) == RestoreGroups(old(dag.Value()), gs)
  {
    ghost var grouped := RestoreGroups(dag.Value(), gs);
    var i := 0;
    while i < |gs|
      invariant 0 <= i <= |gs|
      invariant RestoreGroups(dag.Value(), gs[i..]) == grouped
    {
      assert gs[i..][1..] == gs[i + 1..];
      var members := MembersOf(dag.nodes.Keys, gs[i].nodes);
      if members.Err? {
        return Err(members.reason);
      }
      dag.groups := dag.groups[gs[i].name := members.value];
      i := i + 1;
    }
    return Ok(());
  }

  // ---------------------------------------------------------------------------
  // Comparing two snapshots
  // ---------------------------------------------------------------------------

  /** The items of `xs` that `ys` does not hold, in the order of `xs`. */
  function Missing<T(==,!new)>(xs: seq<T>, ys: seq<T>): (r: seq<T>)
    ensures forall x :: x in r <==> x in xs && x !in ys
    ensures |r| <= |xs|
    ensures (forall x :: x in xs ==> x in ys) ==> r == []
  {
    if xs == [] then []
    else (if xs[0] in ys then [] else [xs[0]]) + Missing(xs[1..], ys)
  }

  /** The items two lists do not share, when the lists differ at all: first
      those only on the right, then those only on the left. */
  function Changed<T(==,!new)>(left: seq<T>, right: seq<T>): (r: seq<T>)
    ensures forall x :: x in r <==> left != right && (x in left <==> x !in right)
    ensures (forall x :: x in left <==> x in right) ==> r == []
  {
    if left == right then [] else Missing(right, left) + Missing(left, right)
  }

  /** The names of a list of node records. */
  function RecordNames(rs: seq<NodeRecord>): (r: seq<string>)
    ensures |r| == |rs| && forall i :: 0 <= i < |rs| ==> r[i] == rs[i].name
    ensures forall name :: name in r <==> exists n :: n in rs && n.name == name
  {
    var r := seq(|rs|, i requires 0 <= i < |rs| => rs[i].name);
    assert forall name :: name in r ==> exists i :: 0 <= i < |rs| && rs[i].name == name;
    r
  }

  /** The (FROM, TO) pairs of a list of edge records. */
  function EdgePairs(es: seq<EdgeRecord>): (r: seq<(string, string)>)
    ensures |r| == |es| && forall i :: 0 <= i < |es| ==> r[i] == (es[i].from, es[i].to)
    ensures forall pair :: pair in r <==> exists e :: e in es && (e.from, e.to) == pair
  {
    var r := seq(|es|, i requires 0 <= i < |es| => (es[i].from, es[i].to));
    assert forall pair :: pair in r ==> exists i :: 0 <= i < |es| && (es[i].from, es[i].to) == pair;
    r
  }

  /** `dagSnapshotDiff(snapshotLeft, snapshotRight)`: the names of the node
      records one snapshot has and the other lacks, and the (FROM, TO) pairs
      of the edge records one has and the other lacks. Records are compared
      whole, so a node whose value changed is reported under its name. */
  function SnapshotDiff(left: SnapshotDict, right: SnapshotDict): (r: (seq<string>, seq<(string, string)>))
    ensures forall name :: name in r.0 <==>
      (left.nodes != right.nodes &&
       exists n :: n in left.nodes + right.nodes && (n in left.nodes <==> n !in right.nodes) && n.name == name)
    ensures forall pair :: pair in r.1 <==>
      (left.edges != right.edges &&
       exists e :: e in left.edges + right.edges && (e in left.edges <==> e !in right.edges) && (e.from, e.to) == pair)
  {
    (RecordNames(Changed(left.nodes, right.nodes)), EdgePairs(Changed(left.edges, right.edges)))
  }

  /** The comparison goes by membership: two snapshots listing the same
      records in another order, or with repeats, show no difference. */
  lemma SnapshotDiffReordered(left: SnapshotDict, right: SnapshotDict)
    requires forall n :: n in left.nodes <==> n in right.nodes
    requires forall e :: e in left.edges <==> e in right.edges
    ensures SnapshotDiff(left, right) == ([], [])
  {
  }

  /** Swapping the two snapshots reports the same names and the same edges,
      each list in another order. */
  lemma SnapshotDiffSymmetric(left: SnapshotDict, right: SnapshotDict)
    ensures multiset(SnapshotDiff(left, right).0) == multiset(SnapshotDiff(right, left).0)
    ensures multiset(SnapshotDiff(left, right).1) == multiset(SnapshotDiff(right, left).1)
  {
    if left.nodes != right.nodes {
      var a, b := Missing(right.nodes, left.nodes), Missing(left.nodes, right.nodes);
      RecordNamesAppend(a, b);
      RecordNamesAppend(b, a);
    }
    if left.edges != right.edges {
      var a, b := Missing(right.edges, left.edges), Missing(left.edges, right.edges);
      EdgePairsAppend(a, b);
      EdgePairsAppend(b, a);
    }
  }

  lemma RecordNamesAppend(a: seq<NodeRecord>, b: seq<NodeRecord>)
    ensures RecordNames(a + b) == RecordNames(a) + RecordNames(b)
  {
  }

  lemma EdgePairsAppend(a: seq<EdgeRecord>, b: seq<EdgeRecord>)
    ensures EdgePairs(a + b) == EdgePairs(a) + EdgePairs(b)
  {
  }
}
