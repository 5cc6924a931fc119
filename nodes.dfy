/** Graph nodes: the kinds of step, their declared inputs, outputs and
    attributes, and a node's property dictionary.

    A node keeps all three kinds of property in ONE dictionary: an input
    named `n` under the key `INPUT@n`, an output under `OUTPUT@n`, and an
    attribute under its bare name. Reads either return the stored string or
    pass it through workflow-variable substitution; they never change it. */
module Nodes {
  import opened Wrappers
  import opened PyText
  import Variables
  import Frames
  import Packets

  type PacketType = Packets.PacketType
  type Uuid = Packets.Uuid

  // ---------------------------------------------------------------------------
  // Node kinds and what each declares
  // ---------------------------------------------------------------------------

  /** The node classes of the two bundled plugin files, plus one generated
      read node per packet type. */
  datatype Kind =
    | LightprobeReduce | StructureFromMotion | ColorspaceApply | LightfieldRasterize | ImageTransform
    | Ls | Awk
    | Read(packetType: PacketType)

  datatype InputDecl = InputDecl(name: string, packetType: PacketType, required: bool)
  datatype OutputDecl = OutputDecl(name: string, packetType: PacketType)
  datatype AttributeDecl = AttributeDecl(name: string, default: string, isFileType: bool)

  /** A packet class's name without its `DataPacket` prefix. */
  function TypeName(t: PacketType): string {
    match t
    case Image => "Image"
    case Lightprobe => "Lightprobe"
    case Pointcloud => "Pointcloud"
    case Lightfield => "Lightfield"
    case BoundingBox => "BoundingBox"
    case Colorspace => "Colorspace"
    case TextFile => "TextFile"
  }

  /** `_defineInputs` of each kind. */
  function InputDecls(k: Kind): seq<InputDecl> {
    match k
    case LightprobeReduce => [InputDecl("Lightprobe", Packets.Lightprobe, true)]
    case StructureFromMotion => [InputDecl("ImageTypes", Packets.Image, true)]
    case ColorspaceApply => [InputDecl("ImageTypes", Packets.Image, true)]
    case LightfieldRasterize =>
      [InputDecl("Lightprobe", Packets.Lightprobe, true), InputDecl("BoundingBox", Packets.BoundingBox, true)]
    case ImageTransform => [InputDecl("ImageTypes", Packets.Image, true)]
    case Ls => []
    case Awk => [InputDecl("File", Packets.TextFile, true)]
    case Read(_) => []
  }

  /** `_defineOutputs` of each kind; a read node's one output is named after its type. */
  function OutputDecls(k: Kind): seq<OutputDecl> {
    match k
    case LightprobeReduce => [OutputDecl("Lightprobe", Packets.Lightprobe)]
    case StructureFromMotion => [OutputDecl("Pointcloud", Packets.Pointcloud)]
    case ColorspaceApply => [OutputDecl("ImageTypes", Packets.Image)]
    case LightfieldRasterize => [OutputDecl("Lightfield", Packets.Lightfield)]
    case ImageTransform => [OutputDecl("ImageTypes", Packets.Image)]
    case Ls => [OutputDecl("File", Packets.TextFile)]
    case Awk => [OutputDecl("File", Packets.TextFile)]
    case Read(t) => [OutputDecl(TypeName(t), t)]
  }

  /** `_defineAttributes` of each kind, with their defaults. */
  function AttributeDecls(k: Kind): seq<AttributeDecl> {
    match k
    case LightprobeReduce => [AttributeDecl("resultCount", "", false)]
    case StructureFromMotion => [AttributeDecl("parameters", "", false)]
    case ColorspaceApply => [AttributeDecl("colorCurveFile", "", true)]
    case LightfieldRasterize =>
      [AttributeDecl("b", "O", false), AttributeDecl("threads", "4", false), AttributeDecl("g", "", false),
       AttributeDecl("probeSampler", "UNIFORMPROBESAMPLER", false),
       AttributeDecl("projector", "3DRGBLINEDRAWING", false), AttributeDecl("dims", "256 256 256", false)]
    case ImageTransform => [AttributeDecl("scale", "100", false)]
    case Ls => [AttributeDecl("listPath", "", false), AttributeDecl("long", "True", false)]
    case Awk => [AttributeDecl("command", "", false)]
    case Read(_) => []
  }

  /** `readNodeClassFactory(t)`: the generated class's name. */
  function ReadNodeClassName(t: PacketType): string {
    "DagNode" + TypeName(t) + "Read"
  }

  /** A read node declares no input, no attribute and one output of its type. */
  lemma ReadNodeDecls(t: PacketType)
    ensures InputDecls(Read(t)) == [] && AttributeDecls(Read(t)) == []
    ensures OutputDecls(Read(t)) == [OutputDecl(TypeName(t), t)]
  {
  }

  /** `isEmbarrassinglyParallel`: only the two per-image kinds override it. */
  predicate IsEmbarrassinglyParallel(k: Kind) {
    k == ColorspaceApply || k == ImageTransform
  }

  // ---------------------------------------------------------------------------
  // Accepted and possible packet types
  // ---------------------------------------------------------------------------

  /** `allPossibleInputTypes` / `allPossibleOutputTypes`: the declared type and
      every type derived from it. */
  function PossibleTypes(t: PacketType): (r: set<PacketType>)
    ensures t in r && forall s :: s in r <==> s == t || s in Packets.SubtypesOf(t)
  {
    {t} + Packets.SubtypesOf(t)
  }

  /** `dataPacketTypesAccepted`: the possible types of all inputs. */
  function TypesAccepted(k: Kind): (r: set<PacketType>)
    ensures forall s :: s in r <==> exists i :: 0 <= i < |InputDecls(k)| && s in PossibleTypes(InputDecls(k)[i].packetType)
  {
    set i, s | 0 <= i < |InputDecls(k)| && s in PossibleTypes(InputDecls(k)[i].packetType) :: s
  }

  /** The slot names of every type an output of type `t` can carry. */
  function PossibleSlots(t: PacketType): (r: set<string>)
    ensures forall k :: k in r <==> exists s :: s in PossibleTypes(t) && k in Packets.Slots(s)
  {
    set s, k | s in PossibleTypes(t) && k in Packets.Slots(s) :: k
  }

  /** The value dictionary a fresh output of type `t` starts with. */
  function FreshFiles(t: PacketType): (m: map<string, string>)
    ensures m.Keys == PossibleSlots(t)
    ensures forall k :: k in m ==> m[k] == ""
  {
    map k | k in PossibleSlots(t) :: ""
  }

  /** `DagNodeOutput.__init__`: one empty entry for every slot of every type
      the output can carry, gathered type by type. */
  method NewOutputFiles(t: PacketType) returns (files: map<string, string>)
    ensures files == FreshFiles(t)
  {
    files := map[];
    var types := PossibleTypes(t);
    ghost var done: set<PacketType> := {};
    while types != {}
      invariant done + types == PossibleTypes(t)
      invariant forall k :: k in files <==> exists s :: s in done && k in Packets.Slots(s)
      invariant forall k :: k in files ==> files[k] == ""
      decreases |types|
    {
      var tipe :| tipe in types;
      files := AddEmptySlots(files, Packets.FreshFilenames(tipe).Keys);
      done := done + {tipe};
      types := types - {tipe};
    }
  }

  /** The inner loop of `DagNodeOutput.__init__`: one empty entry per slot
      name of a fresh packet. */
  method AddEmptySlots(files: map<string, string>, all: set<string>) returns (r: map<string, string>)
    ensures forall k :: k in r <==> k in files || k in all
    ensures forall k :: k in all ==> r[k] == ""
    ensures forall k :: k in files && k !in all ==> r[k] == files[k]
  {
    r := files;
    var names := all;
    while names != {}
      invariant names <= all
      invariant forall k :: k in r <==> k in files || (k in all && k !in names)
      invariant forall k :: k in all && k !in names ==> r[k] == ""
      invariant forall k :: k in files && k !in all ==> r[k] == files[k]
      decreases |names|
    {
      var fdName :| fdName in names;
      r := r[fdName := ""];
      names := names - {fdName};
    }
  }

  /** The value keys of outputs declared Image and TextFile. */
  lemma OutputSlotTables()
    ensures PossibleSlots(Packets.Image) == {"filename", "transform"}
    ensures PossibleSlots(Packets.TextFile) == {"filename"}
  {
    Packets.SlotTables();
  }

  /** An input declared TextFile accepts TextFile packets only. */
  lemma TextFileAcceptsItself()
    ensures PossibleTypes(Packets.TextFile) == {Packets.TextFile}
    ensures PossibleTypes(Packets.Image) == {Packets.Image, Packets.Lightprobe}
  {
  }

  // ---------------------------------------------------------------------------
  // Properties and the property dictionary
  // ---------------------------------------------------------------------------

  /** A property's range: absent, or a pair of optional strings. */
  type Range = Option<(Option<string>, Option<string>)>

  datatype Property =
    | InputProp(name: string, packetType: PacketType, required: bool, value: string, seqRange: Range)
    | OutputProp(name: string, packetType: PacketType, files: map<string, string>, seqRange: Range)
    | AttributeProp(name: string, value: string, isFileType: bool, seqRange: Range)

  /** The dictionary key of input `n`. */
  function InputKey(n: string): string { "INPUT@" + n }

  /** The dictionary key of output `n`. */
  function OutputKey(n: string): string { "OUTPUT@" + n }

  /** A property sits under the key its kind and name give. Attribute names
      hold no `@`, so the three kinds of key never collide. */
  predicate KeyedAt(key: string, p: Property) {
    match p
    case InputProp(n, _, _, _, _) => key == InputKey(n)
    case OutputProp(n, _, _, _) => key == OutputKey(n)
    case AttributeProp(n, _, _, _) => key == n && '@' !in n
  }

  datatype Node = Node(kind: Kind, name: string, uuid: Uuid, props: map<string, Property>)

  /** Every entry of the dictionary sits under its own key. */
  predicate WfProps(m: map<string, Property>) {
    forall key :: key in m ==> KeyedAt(key, m[key])
  }

  predicate Wf(n: Node) {
    WfProps(n.props)
  }

  /** Every input in the dictionary is unconnected (empty value, no range)
      and no output has a range. */
  predicate Unset(m: map<string, Property>) {
    (forall key :: key in m && m[key].InputProp? ==> m[key].value == "" && m[key].seqRange.None?) &&
    (forall key :: key in m && m[key].OutputProp? ==> m[key].seqRange.None?)
  }

  /** The three kinds of key are told apart by their first characters. */
  lemma KeysDisjoint(a: string, b: string)
    ensures InputKey(a) != OutputKey(b)
    ensures '@' in InputKey(a) && '@' in OutputKey(b)
  {
    assert InputKey(a)[0] == 'I' && OutputKey(b)[0] == 'O';
    assert InputKey(a)[5] == '@' && OutputKey(b)[6] == '@';
  }

  /** Under `Wf`, what sits under an input key is an input of that name, and
      likewise for outputs and attributes. */
  lemma KindAtKey(n: Node, key: string)
    requires Wf(n) && key in n.props
    ensures forall a :: key == InputKey(a) ==> n.props[key].InputProp? && n.props[key].name == a
    ensures forall a :: key == OutputKey(a) ==> n.props[key].OutputProp? && n.props[key].name == a
    ensures '@' !in key ==> n.props[key].AttributeProp? && n.props[key].name == key
  {
    var p := n.props[key];
    forall a | key == InputKey(a)
      ensures p.InputProp? && p.name == a
    {
      KeysDisjoint(a, p.name);
      assert InputKey(a)[6..] == a;
      if p.InputProp? {
        assert InputKey(p.name)[6..] == p.name;
      }
    }
    forall a | key == OutputKey(a)
      ensures p.OutputProp? && p.name == a
    {
      KeysDisjoint(p.name, a);
      assert OutputKey(a)[7..] == a;
      if p.OutputProp? {
        assert OutputKey(p.name)[7..] == p.name;
      }
    }
    if '@' !in key {
      KeysDisjoint(p.name, p.name);
    }
  }

  function FreshInput(d: InputDecl): Property {
    InputProp(d.name, d.packetType, d.required, "", None)
  }

  function FreshOutput(d: OutputDecl): Property {
    OutputProp(d.name, d.packetType, FreshFiles(d.packetType), None)
  }

  function FreshAttribute(d: AttributeDecl): Property {
    AttributeProp(d.name, d.default, d.isFileType, None)
  }

  function AddInputs(m: map<string, Property>, ds: seq<InputDecl>): (r: map<string, Property>)
    ensures r.Keys == m.Keys + set i | 0 <= i < |ds| :: InputKey(ds[i].name)
    ensures WfProps(m) ==> WfProps(r)
    ensures Unset(m) ==> Unset(r)
    decreases |ds|
  {
    if ds == [] then m
    else
      var m' := m[InputKey(ds[0].name) := FreshInput(ds[0])];
      assert Unset(m) ==> Unset(m');
      AddInputs(m', ds[1..])
  }

  function AddOutputs(m: map<string, Property>, ds: seq<OutputDecl>): (r: map<string, Property>)
    ensures r.Keys == m.Keys + set i | 0 <= i < |ds| :: OutputKey(ds[i].name)
    ensures WfProps(m) ==> WfProps(r)
    ensures Unset(m) ==> Unset(r)
    decreases |ds|
  {
    if ds == [] then m
    else
      var m' := m[OutputKey(ds[0].name) := FreshOutput(ds[0])];
      assert Unset(m) ==> Unset(m');
      AddOutputs(m', ds[1..])
  }

  function AddAttributes(m: map<string, Property>, ds: seq<AttributeDecl>): (r: map<string, Property>)
    ensures r.Keys == m.Keys + set i | 0 <= i < |ds| :: ds[i].name
    ensures WfProps(m) && (forall i :: 0 <= i < |ds| ==> '@' !in ds[i].name) ==> WfProps(r)
    ensures Unset(m) ==> Unset(r)
    decreases |ds|
  {
    if ds == [] then m
    else
      var m' := m[ds[0].name := FreshAttribute(ds[0])];
      assert Unset(m) ==> Unset(m');
      AddAttributes(m', ds[1..])
  }

  /** Every output in the dictionary is as its constructor left it. */
  predicate OutputsFresh(m: map<string, Property>) {
    forall key :: key in m && m[key].OutputProp? ==>
      m[key].files == FreshFiles(m[key].packetType) && m[key].seqRange.None?
  }

  lemma {:induction false} AddInputsOutputsFresh(m: map<string, Property>, ds: seq<InputDecl>)
    requires OutputsFresh(m)
    ensures OutputsFresh(AddInputs(m, ds))
    decreases |ds|
  {
    if ds != [] {
      var m' := m[InputKey(ds[0].name) := FreshInput(ds[0])];
      assert OutputsFresh(m');
      AddInputsOutputsFresh(m', ds[1..]);
    }
  }

  lemma {:induction false} AddOutputsOutputsFresh(m: map<string, Property>, ds: seq<OutputDecl>)
    requires OutputsFresh(m)
    ensures OutputsFresh(AddOutputs(m, ds))
    decreases |ds|
  {
    if ds != [] {
      var m' := m[OutputKey(ds[0].name) := FreshOutput(ds[0])];
      assert OutputsFresh(m');
      AddOutputsOutputsFresh(m', ds[1..]);
    }
  }

  lemma {:induction false} AddAttributesOutputsFresh(m: map<string, Property>, ds: seq<AttributeDecl>)
    requires OutputsFresh(m)
    ensures OutputsFresh(AddAttributes(m, ds))
    decreases |ds|
  {
    if ds != [] {
      var m' := m[ds[0].name := FreshAttribute(ds[0])];
      assert OutputsFresh(m');
      AddAttributesOutputsFresh(m', ds[1..]);
    }
  }

  /** A new node's outputs hold an empty entry for every possible slot and no range. */
  lemma FreshOutputsFresh(k: Kind)
    ensures OutputsFresh(FreshProps(k))
  {
    var m0: map<string, Property> := map[];
    AddInputsOutputsFresh(m0, InputDecls(k));
    var m1 := AddInputs(m0, InputDecls(k));
    AddOutputsOutputsFresh(m1, OutputDecls(k));
    AddAttributesOutputsFresh(AddOutputs(m1, OutputDecls(k)), AttributeDecls(k));
  }

  /** The dictionary `DagNode.__init__` fills: inputs, then outputs, then
      attributes. It is well formed and its inputs are unconnected. */
  function FreshProps(k: Kind): (m: map<string, Property>)
    ensures WfProps(m) && Unset(m)
  {
    AttributeNamesPlain(k);
    AddAttributes(AddOutputs(AddInputs(map[], InputDecls(k)), OutputDecls(k)), AttributeDecls(k))
  }

  /** No declared attribute name holds `@`. */
  lemma AttributeNamesPlain(k: Kind)
    ensures forall i :: 0 <= i < |AttributeDecls(k)| ==> '@' !in AttributeDecls(k)[i].name
  {
    if k == LightfieldRasterize {
      RasterizeAttributeNamesPlain();
    } else {
      var ds := AttributeDecls(k);
      forall i | 0 <= i < |ds|
        ensures '@' !in ds[i].name
      {
        PlainName(ds[i].name);
      }
    }
  }

  lemma RasterizeAttributeNamesPlain()
    ensures forall i :: 0 <= i < |AttributeDecls(LightfieldRasterize)| ==> '@' !in AttributeDecls(LightfieldRasterize)[i].name
  {
    var ds := AttributeDecls(LightfieldRasterize);
    forall i | 0 <= i < |ds|
      ensures '@' !in ds[i].name
    {
      PlainName(ds[i].name);
    }
  }

  /** A name made of letters only holds no `@`. */
  lemma PlainName(name: string)
    requires forall j :: 0 <= j < |name| ==> 'a' <= name[j] <= 'z' || 'A' <= name[j] <= 'Z'
    ensures '@' !in name
  {
  }

  // ---------------------------------------------------------------------------
  // Names
  // ---------------------------------------------------------------------------

  predicate NameChar(c: char) {
    'a' <= c <= 'z' || 'A' <= c <= 'Z' || '0' <= c <= '9' || c == '\n' || c == '.'
  }

  /** `cleanNodeName`: every character outside `[a-zA-Z0-9\n.]` becomes `_`. */
  function CleanNodeName(name: string): (r: string)
    ensures |r| == |name|
    ensures forall i :: 0 <= i < |r| ==> (if NameChar(name[i]) then r[i] == name[i] else r[i] == '_')
  {
    seq(|name|, i requires 0 <= i < |name| => if NameChar(name[i]) then name[i] else '_')
  }

  /** Cleaning a clean name changes nothing, so cleaning twice is cleaning once. */
  lemma CleanNodeNameIdempotent(name: string)
    ensures CleanNodeName(CleanNodeName(name)) == CleanNodeName(name)
  {
  }

  /** A name is kept as it is iff it is made of allowed characters and `_`. */
  lemma CleanNodeNameFixed(name: string)
    ensures CleanNodeName(name) == name <==> forall i :: 0 <= i < |name| ==> NameChar(name[i]) || name[i] == '_'
  {
    if CleanNodeName(name) == name {
      forall i | 0 <= i < |name|
        ensures NameChar(name[i]) || name[i] == '_'
      {
        assert CleanNodeName(name)[i] == name[i];
      }
    }
  }

  /** Cleaning distributes over concatenation. */
  lemma CleanNodeNameConcat(a: string, b: string)
    ensures CleanNodeName(a + b) == CleanNodeName(a) + CleanNodeName(b)
  {
  }

  /** `DagNode(name, nUUID)`: the cleaned name and the declared properties. */
  function NewNode(k: Kind, name: string, id: Uuid): Node {
    Node(k, CleanNodeName(name), id, FreshProps(k))
  }

  /** `setName`: the cleaned name is stored. */
  function SetName(n: Node, name: string): (r: Node)
    ensures r.name == CleanNodeName(name) && r.props == n.props && r.uuid == n.uuid && r.kind == n.kind
  {
    n.(name := CleanNodeName(name))
  }

  // ---------------------------------------------------------------------------
  // Property lookup, reads and writes
  // ---------------------------------------------------------------------------

  /** `inputNamed`: the input stored under `INPUT@name`, or an error. */
  function InputNamed(n: Node, name: string): (r: Result<Property>)
    requires Wf(n)
    ensures r.Ok? <==> InputKey(name) in n.props
    ensures r.Ok? ==> r.value == n.props[InputKey(name)] && r.value.InputProp? && r.value.name == name
    ensures r.Err? ==> r.reason == "Input " + name + " does not exist in node " + n.name + "."
  {
    var key := InputKey(name);
    if key !in n.props then Err("Input " + name + " does not exist in node " + n.name + ".")
    else
      KindAtKey(n, key);
      Ok(n.props[key])
  }

  /** `outputNamed`: the output stored under `OUTPUT@name`, or an error. */
  function OutputNamed(n: Node, name: string): (r: Result<Property>)
    requires Wf(n)
    ensures r.Ok? <==> OutputKey(name) in n.props
    ensures r.Ok? ==> r.value == n.props[OutputKey(name)] && r.value.OutputProp? && r.value.name == name
    ensures r.Err? ==> r.reason == "Output " + name + " does not exist in node " + n.name + "."
  {
    var key := OutputKey(name);
    if key !in n.props then Err("Output " + name + " does not exist in node " + n.name + ".")
    else
      KindAtKey(n, key);
      Ok(n.props[key])
  }

  /** `attributeNamed`: the attribute stored under its bare name, or an error. */
  function AttributeNamed(n: Node, name: string): (r: Result<Property>)
    requires Wf(n)
    ensures r.Ok? <==> name in n.props && '@' !in name
    ensures r.Ok? ==> r.value == n.props[name] && r.value.AttributeProp? && r.value.name == name
    ensures r.Err? ==> r.reason == "Attribute " + name + " does not exist in node " + n.name + "."
  {
    if name !in n.props || '@' in name then Err("Attribute " + name + " does not exist in node " + n.name + ".")
    else
      KindAtKey(n, name);
      Ok(n.props[name])
  }

  /** A read with `variableSubstitution` on or off. */
  function ReadStored(scope: Variables.Scope, stored: string, substitute: bool): string {
    if substitute then Variables.Substitute(scope, stored) else stored
  }

  /** Both ends present and non-empty, as `seqRange and seqRange[0] and seqRange[1]` tests. */
  predicate TruthyEnds(r: Range) {
    r.Some? && r.value.0.Some? && r.value.0.value != "" && r.value.1.Some? && r.value.1.value != ""
  }

  /** The range an input or output read returns: substituted end by end only
      when both ends are truthy, otherwise as stored. */
  function ReadRange(scope: Variables.Scope, stored: Range, substitute: bool): (r: Range)
    ensures !substitute || !TruthyEnds(stored) ==> r == stored
    ensures substitute && TruthyEnds(stored) ==>
      r == Some((Some(Variables.Substitute(scope, stored.value.0.value)), Some(Variables.Substitute(scope, stored.value.1.value))))
  {
    if substitute && TruthyEnds(stored) then
      Some((Some(Variables.Substitute(scope, stored.value.0.value)), Some(Variables.Substitute(scope, stored.value.1.value))))
    else stored
  }

  /** `inputValue(name, variableSubstitution)`. */
  function InputValue(n: Node, name: string, scope: Variables.Scope, substitute: bool): (r: Result<string>)
    requires Wf(n)
    ensures r.Ok? <==> InputKey(name) in n.props
    ensures r.Ok? ==>
      n.props[InputKey(name)].InputProp? &&
      r.value == if substitute then Variables.Substitute(scope, n.props[InputKey(name)].value) else n.props[InputKey(name)].value
    ensures r.Err? ==> r == Err("Input " + name + " does not exist in node " + n.name + ".")
  {
    var p :- InputNamed(n, name);
    Ok(ReadStored(scope, p.value, substitute))
  }

  /** `inputRange(name, variableSubstitution)`. */
  function InputRange(n: Node, name: string, scope: Variables.Scope, substitute: bool): (r: Result<Range>)
    requires Wf(n)
    ensures r.Ok? <==> InputKey(name) in n.props
    ensures r.Ok? ==> var stored := n.props[InputKey(name)].seqRange;
      (!substitute || !TruthyEnds(stored) ==> r.value == stored) &&
      (substitute && TruthyEnds(stored) ==>
        r.value == Some((Some(Variables.Substitute(scope, stored.value.0.value)), Some(Variables.Substitute(scope, stored.value.1.value)))))
    ensures r.Err? ==> r == Err("Input " + name + " does not exist in node " + n.name + ".")
  {
    var p :- InputNamed(n, name);
    Ok(ReadRange(scope, p.seqRange, substitute))
  }

  /** `outputValue(name, subName, variableSubstitution)`: a missing sub-name
      raises `KeyError`. */
  function OutputValue(n: Node, name: string, subName: string, scope: Variables.Scope, substitute: bool): (r: Result<string>)
    requires Wf(n)
    ensures r.Ok? <==> OutputNamed(n, name).Ok? && subName in OutputNamed(n, name).value.files
    ensures r.Ok? && !substitute ==> r.value == n.props[OutputKey(name)].files[subName]
    ensures r.Ok? && substitute ==> r.value == Variables.Substitute(scope, n.props[OutputKey(name)].files[subName])
    ensures OutputKey(name) !in n.props ==> r == Err("Output " + name + " does not exist in node " + n.name + ".")
    ensures OutputKey(name) in n.props && subName !in n.props[OutputKey(name)].files ==> r == Err("KeyError: " + subName)
  {
    var p :- OutputNamed(n, name);
    if subName !in p.files then Err("KeyError: " + subName)
    else Ok(ReadStored(scope, p.files[subName], substitute))
  }

  /** `outputRange(name, variableSubstitution)`. */
  function OutputRange(n: Node, name: string, scope: Variables.Scope, substitute: bool): (r: Result<Range>)
    requires Wf(n)
    ensures r.Ok? <==> OutputKey(name) in n.props
    ensures r.Ok? ==> var stored := n.props[OutputKey(name)].seqRange;
      (!substitute || !TruthyEnds(stored) ==> r.value == stored) &&
      (substitute && TruthyEnds(stored) ==>
        r.value == Some((Some(Variables.Substitute(scope, stored.value.0.value)), Some(Variables.Substitute(scope, stored.value.1.value)))))
    ensures r.Err? ==> r == Err("Output " + name + " does not exist in node " + n.name + ".")
  {
    var p :- OutputNamed(n, name);
    Ok(ReadRange(scope, p.seqRange, substitute))
  }

  /** `attributeValue(name, variableSubstitution)`. */
  function AttributeValue(n: Node, name: string, scope: Variables.Scope, substitute: bool): (r: Result<string>)
    requires Wf(n)
    ensures r.Ok? <==> name in n.props && '@' !in name
    ensures r.Ok? && !substitute ==> r.value == n.props[name].value
    ensures r.Ok? && substitute ==> r.value == Variables.Substitute(scope, n.props[name].value)
    ensures r.Err? ==> r == Err("Attribute " + name + " does not exist in node " + n.name + ".")
  {
    var p :- AttributeNamed(n, name);
    Ok(ReadStored(scope, p.value, substitute))
  }

  /** `attributeRange(name, variableSubstitution)`: unlike the input and
      output reads, substitution is applied unconditionally, so a missing
      range or a missing end raises `TypeError`. */
  function AttributeRange(n: Node, name: string, scope: Variables.Scope, substitute: bool): (r: Result<Range>)
    requires Wf(n)
    ensures r.Ok? <==> (name in n.props && '@' !in name &&
      (!substitute || (n.props[name].seqRange.Some? && n.props[name].seqRange.value.0.Some? && n.props[name].seqRange.value.1.Some?)))
    ensures r.Ok? && !substitute ==> r.value == n.props[name].seqRange
    ensures r.Ok? && substitute ==> var stored := n.props[name].seqRange.value;
      r.value == Some((Some(Variables.Substitute(scope, stored.0.value)), Some(Variables.Substitute(scope, stored.1.value))))
    ensures name in n.props && '@' !in name && r.Err? ==> r == Err("TypeError")
  {
    var p :- AttributeNamed(n, name);
    if !substitute then Ok(p.seqRange)
    else if p.seqRange.None? || p.seqRange.value.0.None? || p.seqRange.value.1.None? then Err("TypeError")
    else Ok(Some((Some(Variables.Substitute(scope, p.seqRange.value.0.value)), Some(Variables.Substitute(scope, p.seqRange.value.1.value)))))
  }

  /** `b` is `a` with property entries rewritten in place: same kind, name,
      UUID and keys, and still well formed. */
  predicate Rewritten(a: Node, b: Node) {
    b.kind == a.kind && b.name == a.name && b.uuid == a.uuid && b.props.Keys == a.props.Keys && Wf(b)
  }

  /** `setInputValue(name, value)`. */
  function SetInputValue(n: Node, name: string, value: string): (r: Result<Node>)
    requires Wf(n)
    ensures r.Ok? <==> InputKey(name) in n.props
    ensures r.Ok? ==> Rewritten(n, r.value)
  {
    var p :- InputNamed(n, name);
    Ok(n.(props := n.props[InputKey(name) := InputProp(p.name, p.packetType, p.required, value, p.seqRange)]))
  }

  /** `setInputRange(name, newRange)`. */
  function SetInputRange(n: Node, name: string, newRange: Range): (r: Result<Node>)
    requires Wf(n)
    ensures r.Ok? <==> InputKey(name) in n.props
    ensures r.Ok? ==> Rewritten(n, r.value)
  {
    var p :- InputNamed(n, name);
    Ok(n.(props := n.props[InputKey(name) := InputProp(p.name, p.packetType, p.required, p.value, newRange)]))
  }

  /** `setOutputValue(name, subName, value)`: the sub-name need not exist yet. */
  function SetOutputValue(n: Node, name: string, subName: string, value: string): (r: Result<Node>)
    requires Wf(n)
    ensures r.Ok? <==> OutputKey(name) in n.props
    ensures r.Ok? ==> Rewritten(n, r.value)
  {
    var p :- OutputNamed(n, name);
    Ok(n.(props := n.props[OutputKey(name) := OutputProp(p.name, p.packetType, p.files[subName := value], p.seqRange)]))
  }

  /** `setOutputRange(name, newRange)`. */
  function SetOutputRange(n: Node, name: string, newRange: Range): (r: Result<Node>)
    requires Wf(n)
    ensures r.Ok? <==> OutputKey(name) in n.props
    ensures r.Ok? ==> Rewritten(n, r.value)
  {
    var p :- OutputNamed(n, name);
    Ok(n.(props := n.props[OutputKey(name) := OutputProp(p.name, p.packetType, p.files, newRange)]))
  }

  /** `setAttributeValue(name, value)`. */
  function SetAttributeValue(n: Node, name: string, value: string): (r: Result<Node>)
    requires Wf(n)
    ensures r.Ok? <==> name in n.props && '@' !in name
    ensures r.Ok? ==> Rewritten(n, r.value)
  {
    var p :- AttributeNamed(n, name);
    Ok(n.(props := n.props[name := AttributeProp(p.name, value, p.isFileType, p.seqRange)]))
  }

  /** `setAttributeRange(name, newRange)`. */
  function SetAttributeRange(n: Node, name: string, newRange: Range): (r: Result<Node>)
    requires Wf(n)
    ensures r.Ok? <==> name in n.props && '@' !in name
    ensures r.Ok? ==> Rewritten(n, r.value)
  {
    var p :- AttributeNamed(n, name);
    Ok(n.(props := n.props[name := AttributeProp(p.name, p.value, p.isFileType, newRange)]))
  }

  /** Writing an input's value keeps the node well formed, changes that one
      entry only, and a raw read gives back what was written (a substituted
      read gives its substitution). */
  lemma InputValueRoundTrip(n: Node, name: string, value: string, scope: Variables.Scope)
    requires Wf(n) && InputKey(name) in n.props
    ensures var m := SetInputValue(n, name, value).value;
      Wf(m) && m.name == n.name && m.uuid == n.uuid && m.kind == n.kind &&
      m.props.Keys == n.props.Keys &&
      (forall key :: key in n.props && key != InputKey(name) ==> m.props[key] == n.props[key]) &&
      InputValue(m, name, scope, false) == Ok(value) &&
      InputValue(m, name, scope, true) == Ok(Variables.Substitute(scope, value)) &&
      InputRange(m, name, scope, false) == InputRange(n, name, scope, false)
  {
  }

  /** The same for an input's range. */
  lemma InputRangeRoundTrip(n: Node, name: string, newRange: Range, scope: Variables.Scope)
    requires Wf(n) && InputKey(name) in n.props
    ensures var m := SetInputRange(n, name, newRange).value;
      Wf(m) && m.props.Keys == n.props.Keys &&
      (forall key :: key in n.props && key != InputKey(name) ==> m.props[key] == n.props[key]) &&
      InputRange(m, name, scope, false) == Ok(newRange) &&
      InputValue(m, name, scope, false) == InputValue(n, name, scope, false)
  {
  }

  /** The same for one sub-output's value: other sub-outputs keep theirs. */
  lemma OutputValueRoundTrip(n: Node, name: string, subName: string, value: string, scope: Variables.Scope)
    requires Wf(n) && OutputKey(name) in n.props
    ensures var m := SetOutputValue(n, name, subName, value).value;
      Wf(m) && m.props.Keys == n.props.Keys &&
      (forall key :: key in n.props && key != OutputKey(name) ==> m.props[key] == n.props[key]) &&
      OutputValue(m, name, subName, scope, false) == Ok(value) &&
      (forall other :: other != subName ==> OutputValue(m, name, other, scope, false) == OutputValue(n, name, other, scope, false))
  {
  }

  /** The same for an output's range. */
  lemma OutputRangeRoundTrip(n: Node, name: string, newRange: Range, scope: Variables.Scope)
    requires Wf(n) && OutputKey(name) in n.props
    ensures var m := SetOutputRange(n, name, newRange).value;
      Wf(m) && m.props.Keys == n.props.Keys &&
      (forall key :: key in n.props && key != OutputKey(name) ==> m.props[key] == n.props[key]) &&
      OutputRange(m, name, scope, false) == Ok(newRange)
  {
  }

  /** The same for an attribute's value and range. */
  lemma AttributeRoundTrip(n: Node, name: string, value: string, newRange: Range, scope: Variables.Scope)
    requires Wf(n) && name in n.props && '@' !in name
    ensures var m := SetAttributeValue(n, name, value).value;
      Wf(m) && m.props.Keys == n.props.Keys &&
      (forall key :: key in n.props && key != name ==> m.props[key] == n.props[key]) &&
      AttributeValue(m, name, scope, false) == Ok(value) &&
      AttributeValue(m, name, scope, true) == Ok(Variables.Substitute(scope, value))
    ensures var m := SetAttributeRange(n, name, newRange).value;
      Wf(m) && m.props.Keys == n.props.Keys &&
      (forall key :: key in n.props && key != name ==> m.props[key] == n.props[key]) &&
      AttributeRange(m, name, scope, false) == Ok(newRange)
  {
  }

  /** A stored string without `$` reads the same with or without substitution. */
  lemma ReadWithoutDollar(scope: Variables.Scope, stored: string)
    ensures '$' !in stored ==> ReadStored(scope, stored, true) == ReadStored(scope, stored, false)
  {
    if '$' !in stored {
      Variables.SubstituteNoDollar(scope, stored);
    }
  }

  /** Every declared property of a fresh node can be looked up under its name. */
  lemma FreshNodeDeclared(k: Kind, name: string, id: Uuid)
    ensures Wf(NewNode(k, name, id))
    ensures forall i :: 0 <= i < |InputDecls(k)| ==> InputNamed(NewNode(k, name, id), InputDecls(k)[i].name).Ok?
    ensures forall i :: 0 <= i < |OutputDecls(k)| ==> OutputNamed(NewNode(k, name, id), OutputDecls(k)[i].name).Ok?
  {
    var m := FreshProps(k);
    forall i | 0 <= i < |InputDecls(k)|
      ensures InputKey(InputDecls(k)[i].name) in m
    {
      var a := AddInputs(map[], InputDecls(k));
      assert InputKey(InputDecls(k)[i].name) in a;
    }
    forall i | 0 <= i < |OutputDecls(k)|
      ensures OutputKey(OutputDecls(k)[i].name) in m
    {
      var a := AddOutputs(AddInputs(map[], InputDecls(k)), OutputDecls(k));
      assert OutputKey(OutputDecls(k)[i].name) in a;
    }
  }

  // ---------------------------------------------------------------------------
  // Output ranges, pairing, requirements, duplication
  // ---------------------------------------------------------------------------

  /** `getSeqRange`: the stored range when both ends are set and non-empty,
      otherwise `None`. */
  function GetSeqRange(seqRange: Range): (r: Range)
    ensures r.Some? <==> TruthyEnds(seqRange)
    ensures r.Some? ==> r == seqRange
  {
    if seqRange.None? then None
    else if seqRange.value.0.None? || seqRange.value.1.None? then None
    else if seqRange.value.0.value == "" || seqRange.value.1.value == "" then None
    else seqRange
  }

  /** The position of the first declaration in `ds` of exactly type `t`,
      as the loops of `inputAffectingOutput` and `outputAffectedByInput`
      find it. */
  function FirstOfType<D>(ds: seq<D>, typeOf: D -> PacketType, t: PacketType): (r: Option<nat>)
    ensures r.Some? ==> r.value < |ds| && typeOf(ds[r.value]) == t &&
                        forall j :: 0 <= j < r.value ==> typeOf(ds[j]) != t
    ensures r.None? ==> forall j :: 0 <= j < |ds| ==> typeOf(ds[j]) != t
    decreases |ds|
  {
    if ds == [] then None
    else if typeOf(ds[0]) == t then Some(0)
    else match FirstOfType(ds[1..], typeOf, t)
      case None => None
      case Some(i) => Some(i + 1)
  }

  /** `inputAffectingOutput(output)`: the first input whose declared type is
      exactly the output's; subtypes do not count. */
  function InputAffectingOutput(k: Kind, output: OutputDecl): Option<InputDecl> {
    match FirstOfType(InputDecls(k), (d: InputDecl) => d.packetType, output.packetType)
    case None => None
    case Some(i) => Some(InputDecls(k)[i])
  }

  /** `outputAffectedByInput(input)`, the mirror image. */
  function OutputAffectedByInput(k: Kind, input: InputDecl): Option<OutputDecl> {
    match FirstOfType(OutputDecls(k), (d: OutputDecl) => d.packetType, input.packetType)
    case None => None
    case Some(i) => Some(OutputDecls(k)[i])
  }

  /** The per-image kinds pair their one input with their one output, both ways. */
  lemma ImageKindsPair(k: Kind)
    requires k == ImageTransform || k == ColorspaceApply
    ensures InputAffectingOutput(k, OutputDecls(k)[0]) == Some(InputDecls(k)[0])
    ensures OutputAffectedByInput(k, InputDecls(k)[0]) == Some(OutputDecls(k)[0])
    ensures InputDecls(k)[0] == InputDecl("ImageTypes", Packets.Image, true)
    ensures OutputDecls(k)[0] == OutputDecl("ImageTypes", Packets.Image)
  {
  }

  /** A Lightprobe output is not paired with an Image input: the match is on
      the exact declared type. */
  lemma PairingIsExact()
    ensures InputAffectingOutput(StructureFromMotion, OutputDecls(StructureFromMotion)[0]).None?
    ensures OutputAffectedByInput(LightprobeReduce, InputDecls(LightprobeReduce)[0]) == Some(OutputDecls(LightprobeReduce)[0])
  {
  }

  /** `inputRequirementsFulfilled(pairs)`: every input, required or not, is
      named among the inputs of the supplied (input, packet) pairs. */
  predicate InputRequirementsFulfilled(k: Kind, supplied: seq<string>) {
    forall d :: d in InputDecls(k) ==> d.name in supplied
  }

  /** Kinds without inputs are always fulfilled; an Awk node needs its `File`. */
  lemma RequirementsByKind(supplied: seq<string>)
    ensures InputRequirementsFulfilled(Ls, supplied)
    ensures forall t :: InputRequirementsFulfilled(Read(t), supplied)
    ensures InputRequirementsFulfilled(Awk, supplied) <==> "File" in supplied
    ensures InputRequirementsFulfilled(LightfieldRasterize, supplied) <==>
      "Lightprobe" in supplied && "BoundingBox" in supplied
  {
    var awk := InputDecl("File", Packets.TextFile, true);
    assert InputDecls(Awk) == [awk];
    assert InputRequirementsFulfilled(Awk, supplied) ==> awk.name in supplied;
    var probe := InputDecl("Lightprobe", Packets.Lightprobe, true);
    var box := InputDecl("BoundingBox", Packets.BoundingBox, true);
    assert InputDecls(LightfieldRasterize) == [probe, box];
    assert InputRequirementsFulfilled(LightfieldRasterize, supplied) ==> probe.name in supplied && box.name in supplied;
  }

  /** The outputs and attributes of `n`, which `duplicate` copies. */
  function KeptByDuplicate(n: Node): (m: map<string, Property>)
    ensures forall key :: key in m <==> key in n.props && !n.props[key].InputProp?
  {
    map key | key in n.props && !n.props[key].InputProp? :: n.props[key]
  }

  /** `duplicate(nameExtension)` with `id` as the new node's UUID: a fresh
      node of the same kind, then every attribute and output copied over. */
  function Duplicate(n: Node, nameExtension: string, id: Uuid): Node {
    var dupe := NewNode(n.kind, n.name + nameExtension, id);
    dupe.(props := dupe.props + KeptByDuplicate(n))
  }

  /** The duplicate has the same kind, the extended name, the new UUID, the
      same attributes and outputs, and only unconnected inputs. */
  lemma DuplicateShape(n: Node, nameExtension: string, id: Uuid)
    requires Wf(n)
    ensures var d := Duplicate(n, nameExtension, id);
      Wf(d) && d.kind == n.kind && d.uuid == id &&
      d.name == CleanNodeName(n.name + nameExtension) &&
      (forall key :: key in n.props && !n.props[key].InputProp? ==> key in d.props && d.props[key] == n.props[key]) &&
      (forall key :: key in d.props && d.props[key].InputProp? ==> d.props[key].value == "" && d.props[key].seqRange.None?)
  {
    var d := Duplicate(n, nameExtension, id);
    forall key | key in d.props
      ensures KeyedAt(key, d.props[key])
    {
      if key in KeptByDuplicate(n) {
        assert d.props[key] == n.props[key];
      }
    }
  }

  /** Duplicating a node whose name is already clean appends the cleaned extension. */
  lemma DuplicateName(n: Node, nameExtension: string, id: Uuid)
    requires CleanNodeName(n.name) == n.name
    ensures Duplicate(n, nameExtension, id).name == n.name + CleanNodeName(nameExtension)
  {
    CleanNodeNameConcat(n.name, nameExtension);
  }

  // ---------------------------------------------------------------------------
  // Data packets made from a node's outputs
  // ---------------------------------------------------------------------------

  /** A range end as `int()` receives it. */
  function PyOfText(e: Option<string>): PyVal {
    match e
    case None => PyNone
    case Some(s) => PyStr(s)
  }

  /** A node-level range as `framespec` and `setSequenceRange` receive it. */
  function PyOfTextRange(r: Range): Option<(PyVal, PyVal)> {
    match r
    case None => None
    case Some((a, b)) => Some((PyOfText(a), PyOfText(b)))
  }

  /** The names of `n`'s outputs, in declaration order. */
  function OutputNames(n: Node): (r: seq<string>)
    requires Wf(n)
    ensures forall name :: name in r ==> OutputNamed(n, name).Ok?
  {
    OutputNamesIn(n, OutputDecls(n.kind))
  }

  function OutputNamesIn(n: Node, ds: seq<OutputDecl>): (r: seq<string>)
    requires Wf(n)
    ensures forall name :: name in r ==> OutputKey(name) in n.props
  {
    if ds == [] then []
    else if OutputKey(ds[0].name) in n.props then [ds[0].name] + OutputNamesIn(n, ds[1..])
    else OutputNamesIn(n, ds[1..])
  }

  /** The packet type `sceneGraphHandle` builds for an output: the
      specialisation when one is given for its name, else the declared type. */
  function HandleType(p: Property, specialization: map<string, PacketType>): PacketType
    requires p.OutputProp?
  {
    if p.name in specialization then specialization[p.name] else p.packetType
  }

  /** What `sceneGraphHandle` writes into the packets of one output: each
      sub-output's substituted value, and the range argument every
      `setSequenceRange` call receives. `outputRange` is passed the slot's
      name as its substitution flag, and slot names are never empty
      (`SlotNamesNonEmpty`), so the range is read with substitution. The
      source recomputes both per slot, always to the same value. */
  datatype Fill = Fill(values: map<string, string>, rangeArg: Option<(PyVal, PyVal)>)

  function OutputFill(scope: Variables.Scope, p: Property): (f: Fill)
    requires p.OutputProp?
    ensures f.values.Keys == p.files.Keys
  {
    Fill(map k | k in p.files :: ReadStored(scope, p.files[k], true),
         PyOfTextRange(ReadRange(scope, p.seqRange, true)))
  }

  /** The range an output's packets end up with, or the `ValueError`. */
  function HandleRange(scope: Variables.Scope, p: Property): Result<Option<(Option<int>, Option<int>)>>
    requires p.OutputProp?
  {
    Packets.RangeOf(OutputFill(scope, p).rangeArg)
  }

  /** The packet `sceneGraphHandle` builds for output `name`: a fresh packet
      of the handled type whose every slot holds the substituted output value,
      with the output's range. A slot the output does not have raises
      `KeyError`; a range end `int()` rejects raises `ValueError`. */
  function HandleOutput(n: Node, name: string, specialization: map<string, PacketType>, scope: Variables.Scope): Result<Packets.Packet>
    requires Wf(n) && OutputNamed(n, name).Ok?
  {
    var p := OutputNamed(n, name).value;
    PacketFor(n.uuid, name, HandleType(p, specialization), OutputFill(scope, p))
  }

  /** What `HandleOutput` builds, stated through the node's own accessors. */
  lemma HandleOutputMeaning(n: Node, name: string, specialization: map<string, PacketType>, scope: Variables.Scope)
    requires Wf(n) && OutputNamed(n, name).Ok?
    ensures var r := HandleOutput(n, name, specialization, scope);
      var p := OutputNamed(n, name).value; var t := HandleType(p, specialization);
      r.Ok? <==> (forall k :: k in Packets.Slots(t) ==> OutputValue(n, name, k, scope, true).Ok?) &&
                 (Packets.Slots(t) == {} || HandleRange(scope, p).Ok?)
    ensures var r := HandleOutput(n, name, specialization, scope);
      var p := OutputNamed(n, name).value; var t := HandleType(p, specialization);
      r.Ok? ==>
        r.value.kind == t && r.value.filenames.Keys == Packets.Slots(t) &&
        (forall k :: k in Packets.Slots(t) ==> r.value.filenames[k] == OutputValue(n, name, k, scope, true).value) &&
        r.value.sourceNode == Some(n.uuid) && r.value.sourceOutputName == Some(name) &&
        (Packets.Slots(t) != {} ==> r.value.sequenceRange == HandleRange(scope, p).value)
  {
    var p := OutputNamed(n, name).value;
    var t := HandleType(p, specialization);
    var f := OutputFill(scope, p);
    forall k
      ensures OutputValue(n, name, k, scope, true).Ok? <==> k in f.values
      ensures k in f.values ==> OutputValue(n, name, k, scope, true).value == f.values[k]
    {
    }
  }

  /** The packet of type `t` for output `name` of node `id`, filled with `f`. */
  function PacketFor(id: Uuid, name: string, t: PacketType, f: Fill): (r: Result<Packets.Packet>)
    ensures r.Ok? <==> Packets.Slots(t) <= f.values.Keys && (Packets.Slots(t) == {} || Packets.RangeOf(f.rangeArg).Ok?)
    ensures r.Ok? ==> r.value.filenames.Keys == Packets.Slots(t) &&
                      forall k :: k in Packets.Slots(t) ==> r.value.filenames[k] == f.values[k]
  {
    if !(Packets.Slots(t) <= f.values.Keys) then Err("KeyError")
    else if Packets.Slots(t) != {} && Packets.RangeOf(f.rangeArg).Err? then Err(Packets.RangeOf(f.rangeArg).reason)
    else
      var range := if Packets.Slots(t) == {} then None else Packets.RangeOf(f.rangeArg).value;
      Ok(Packets.Packet(t, map k | k in Packets.Slots(t) :: f.values[k], Some(id), Some(name), range))
  }

  /** What `sceneGraphHandle` builds for one output: its name, the packet
      type and what goes into the packet. */
  datatype Recipe = Recipe(name: string, packetType: PacketType, fill: Fill)

  function Recipes(n: Node, specialization: map<string, PacketType>, scope: Variables.Scope): (rs: seq<Recipe>)
    requires Wf(n)
    ensures |rs| == |OutputNames(n)|
  {
    var names := OutputNames(n);
    seq(|names|, j requires 0 <= j < |names| =>
      var p := OutputNamed(n, names[j]).value;
      Recipe(names[j], HandleType(p, specialization), OutputFill(scope, p)))
  }

  function Cook(id: Uuid, rs: seq<Recipe>): (r: seq<Result<Packets.Packet>>)
    ensures |r| == |rs|
  {
    seq(|rs|, j requires 0 <= j < |rs| => PacketFor(id, rs[j].name, rs[j].packetType, rs[j].fill))
  }

  /** What `sceneGraphHandle` makes of each output, in order. */
  function Handled(n: Node, specialization: map<string, PacketType>, scope: Variables.Scope): (r: seq<Result<Packets.Packet>>)
    requires Wf(n)
    ensures |r| == |OutputNames(n)|
  {
    Cook(n.uuid, Recipes(n, specialization, scope))
  }

  /** Output by output, that is `HandleOutput`. */
  lemma HandledByOutput(n: Node, specialization: map<string, PacketType>, scope: Variables.Scope)
    requires Wf(n)
    ensures forall j :: 0 <= j < |OutputNames(n)| ==>
      Handled(n, specialization, scope)[j] == HandleOutput(n, OutputNames(n)[j], specialization, scope)
  {
  }

  /** An output whose dictionary holds every slot its type can carry, and
      whose range `int()` accepts, yields a packet for its declared type and
      for every subtype. */
  lemma HandleAcceptedType(n: Node, name: string, specialization: map<string, PacketType>, scope: Variables.Scope)
    requires Wf(n) && OutputNamed(n, name).Ok?
    requires var p := OutputNamed(n, name).value;
      PossibleSlots(p.packetType) <= p.files.Keys && HandleRange(scope, p).Ok? &&
      (name in specialization ==> specialization[name] in PossibleTypes(p.packetType))
    ensures HandleOutput(n, name, specialization, scope).Ok?
  {
    var p := OutputNamed(n, name).value;
    var t := HandleType(p, specialization);
    assert t in PossibleTypes(p.packetType);
    forall k | k in Packets.Slots(t)
      ensures OutputValue(n, name, k, scope, true).Ok?
    {
      assert k in PossibleSlots(p.packetType);
    }
    HandleOutputMeaning(n, name, specialization, scope);
  }

  /** An output nobody has written to yields, for its declared type, a
      packet without a range and with every slot empty. */
  lemma HandleUnwrittenOutput(n: Node, name: string, scope: Variables.Scope)
    requires Wf(n) && OutputsFresh(n.props) && OutputNamed(n, name).Ok?
    ensures var r := HandleOutput(n, name, map[], scope);
      r.Ok? && r.value.sequenceRange.None? && r.value.kind == OutputNamed(n, name).value.packetType &&
      forall s :: s in r.value.filenames ==> r.value.filenames[s] == ""
  {
    HandleAcceptedType(n, name, map[], scope);
    HandleOutputMeaning(n, name, map[], scope);
    Variables.SubstituteNoDollar(scope, "");
  }

  /** In particular every output of a new node does. */
  lemma HandleFreshNode(k: Kind, nodeName: string, id: Uuid, name: string, scope: Variables.Scope)
    requires OutputKey(name) in FreshProps(k)
    ensures var n := NewNode(k, nodeName, id);
      Wf(n) && OutputNamed(n, name).Ok? && HandleOutput(n, name, map[], scope).Ok? &&
      HandleOutput(n, name, map[], scope).value.sequenceRange.None?
  {
    FreshOutputsFresh(k);
    HandleUnwrittenOutput(NewNode(k, nodeName, id), name, scope);
  }

  /** Slot names are never empty, so the name `sceneGraphHandle` passes as
      `outputRange`'s substitution flag is always true. */
  lemma SlotNamesNonEmpty(t: PacketType)
    ensures "" !in Packets.Slots(t)
  {
    Packets.SlotTables();
  }

  /** The inner loop of `sceneGraphHandle`: every slot of the new packet gets
      its value, then the range. */
  method FillPacket(dp: Packets.DataPacket, id: Uuid, name: string, t: PacketType, f: Fill)
    returns (r: Result<()>)
    requires dp.Value() == Packets.FreshPacket(t, Some(id), Some(name))
    modifies dp
    ensures r.Ok? <==> PacketFor(id, name, t, f).Ok?
    ensures r.Ok? ==> dp.Value() == PacketFor(id, name, t, f).value
  {
    var todo := dp.filenames.Keys;
    ghost var slots := todo;
    while todo != {}
      invariant todo <= slots && slots == Packets.Slots(t)
      invariant dp.kind == t && dp.sourceNode == Some(id) && dp.sourceOutputName == Some(name)
      invariant dp.filenames.Keys == slots
      invariant forall k :: k in slots && k !in todo ==> k in f.values && dp.filenames[k] == f.values[k]
      invariant todo == slots ==> dp.sequenceRange.None?
      invariant todo != slots ==> Packets.RangeOf(f.rangeArg).Ok? && dp.sequenceRange == Packets.RangeOf(f.rangeArg).value
      decreases todo
    {
      var k :| k in todo;
      r := FillSlot(dp, f, k);
      if r.Err? {
        return;
      }
      todo := todo - {k};
    }
    r := Ok(());
    PacketForFilled(id, name, t, f, dp.Value());
  }

  /** One pass of the inner loop: `setFilename`, then `setSequenceRange`. */
  method FillSlot(dp: Packets.DataPacket, f: Fill, k: string) returns (r: Result<()>)
    requires k in dp.filenames
    modifies dp
    ensures r.Ok? <==> k in f.values && Packets.RangeOf(f.rangeArg).Ok?
    ensures r.Ok? ==> dp.kind == old(dp.kind) && dp.sourceNode == old(dp.sourceNode) &&
                      dp.sourceOutputName == old(dp.sourceOutputName) &&
                      dp.filenames == old(dp.filenames)[k := f.values[k]] &&
                      dp.sequenceRange == Packets.RangeOf(f.rangeArg).value
  {
    if k !in f.values {
      return Err("KeyError: " + k);
    }
    var written := dp.SetFilename(k, f.values[k]);
    r := dp.SetSequenceRange(f.rangeArg);
  }

  /** A packet that has every slot filled from `f` and `f`'s range is the one
      `PacketFor` describes. */
  lemma PacketForFilled(id: Uuid, name: string, t: PacketType, f: Fill, q: Packets.Packet)
    requires PacketFor(id, name, t, f).Ok?
    requires q.kind == t && q.sourceNode == Some(id) && q.sourceOutputName == Some(name)
    requires q.filenames.Keys == Packets.Slots(t)
    requires forall k :: k in Packets.Slots(t) ==> q.filenames[k] == f.values[k]
    requires Packets.Slots(t) == {} ==> q.sequenceRange.None?
    requires Packets.Slots(t) != {} ==> q.sequenceRange == Packets.RangeOf(f.rangeArg).value
    ensures q == PacketFor(id, name, t, f).value
  {
    var expected := PacketFor(id, name, t, f).value;
    assert q.filenames == expected.filenames;
  }

  /** `sceneGraphHandle(specializationDict)`: a new data packet per output. */
  method SceneGraphHandle(n: Node, specialization: map<string, PacketType>, scope: Variables.Scope)
    returns (r: Result<seq<Packets.DataPacket>>)
    requires Wf(n)
    ensures var expected := Handled(n, specialization, scope);
      r.Ok? <==> forall i :: 0 <= i < |expected| ==> expected[i].Ok?
    ensures var expected := Handled(n, specialization, scope);
      r.Ok? ==> |r.value| == |expected| &&
                forall i :: 0 <= i < |r.value| ==> fresh(r.value[i]) && r.value[i].Value() == expected[i].value
  {
    assert Handled(n, specialization, scope) == Cook(n.uuid, Recipes(n, specialization, scope));
    r := MakePackets(n.uuid, Recipes(n, specialization, scope));
  }

  /** The loop over the outputs: a new packet per recipe, filled. */
  method MakePackets(id: Uuid, rs: seq<Recipe>) returns (r: Result<seq<Packets.DataPacket>>)
    ensures var expected := Cook(id, rs);
      r.Ok? <==> forall i :: 0 <= i < |expected| ==> expected[i].Ok?
    ensures var expected := Cook(id, rs);
      r.Ok? ==> |r.value| == |expected| &&
                forall i :: 0 <= i < |r.value| ==> fresh(r.value[i]) && r.value[i].Value() == expected[i].value
  {
    ghost var expected := Cook(id, rs);
    var packets: seq<Packets.DataPacket> := [];
    var i := 0;
    while i < |rs|
      invariant 0 <= i <= |rs| && |packets| == i
      invariant forall j :: 0 <= j < i ==> expected[j].Ok? && fresh(packets[j]) && packets[j].Value() == expected[j].value
    {
      var dp := new Packets.DataPacket(rs[i].packetType, Some(id), Some(rs[i].name));
      var filled := FillPacket(dp, id, rs[i].name, rs[i].packetType, rs[i].fill);
      if filled.Err? {
        assert !expected[i].Ok?;
        return Err(filled.reason);
      }
      packets := packets + [dp];
      i := i + 1;
    }
    r := Ok(packets);
  }

  /** `outputFramespec(name, subName)`: a framespec over the substituted
      value and the substituted range. */
  method OutputFramespec(n: Node, name: string, subName: string, scope: Variables.Scope)
    returns (r: Result<Frames.FrameSpec>)
    requires Wf(n)
    ensures OutputValue(n, name, subName, scope, true).Err? ==> r.Err?
    ensures OutputValue(n, name, subName, scope, true).Ok? ==>
      var value := OutputValue(n, name, subName, scope, true).value;
      var range := PyOfTextRange(OutputRange(n, name, scope, true).value);
      (r.Ok? <==> Frames.SpecFrames(value, range).Ok?) &&
      (r.Ok? ==> fresh(r.value) && r.value.filename == value &&
                 Frames.FrameList(value, r.value.startFrame, r.value.endFrame) == Frames.SpecFrames(value, range).value)
  {
    var value := OutputValue(n, name, subName, scope, true);
    if value.Err? {
      return Err(value.reason);
    }
    var range := OutputRange(n, name, scope, true).value;
    r := Frames.NewFrameSpec(value.value, PyOfTextRange(range));
  }

  // ---------------------------------------------------------------------------
  // The node object
  // ---------------------------------------------------------------------------

  /** A `DagNode` object: its setters change its property dictionary in
      place, each as the function of the same name describes. */
  class DagNode {
    var kind: Kind
    var name: string
    var uuid: Uuid
    var props: map<string, Property>

    function Value(): Node
      reads this
    {
      Node(kind, name, uuid, props)
    }

    /** `DagNode(name, nUUID)` of kind `k`. */
    constructor (k: Kind, nodeName: string, id: Uuid)
      ensures Value() == NewNode(k, nodeName, id) && Wf(Value())
    {
      kind := k;
      name := CleanNodeName(nodeName);
      uuid := id;
      props := FreshProps(k);
    }

    /** `setName(name)`. */
    method SetNodeName(newName: string)
      modifies this
      ensures Value() == SetName(old(Value()), newName)
    {
      name := CleanNodeName(newName);
    }

    /** `setInputValue(name, value)`: raises for an unknown input. */
    method SetInputValueOf(inputName: string, value: string) returns (r: Result<()>)
      requires Wf(Value())
      modifies this
      ensures r.Ok? <==> SetInputValue(old(Value()), inputName, value).Ok?
      ensures r.Ok? ==> Value() == SetInputValue(old(Value()), inputName, value).value
      ensures r.Err? ==> Value() == old(Value())
    {
      var updated := SetInputValue(Value(), inputName, value);
      if updated.Err? {
        return Err(updated.reason);
      }
      props := updated.value.props;
      r := Ok(());
    }

    /** `setInputRange(name, newRange)`. */
    method SetInputRangeOf(inputName: string, newRange: Range) returns (r: Result<()>)
      requires Wf(Value())
      modifies this
      ensures r.Ok? <==> SetInputRange(old(Value()), inputName, newRange).Ok?
      ensures r.Ok? ==> Value() == SetInputRange(old(Value()), inputName, newRange).value
      ensures r.Err? ==> Value() == old(Value())
    {
      var updated := SetInputRange(Value(), inputName, newRange);
      if updated.Err? {
        return Err(updated.reason);
      }
      props := updated.value.props;
      r := Ok(());
    }

    /** `setOutputValue(name, subName, value)`. */
    method SetOutputValueOf(outputName: string, subName: string, value: string) returns (r: Result<()>)
      requires Wf(Value())
      modifies this
      ensures r.Ok? <==> SetOutputValue(old(Value()), outputName, subName, value).Ok?
      ensures r.Ok? ==> Value() == SetOutputValue(old(Value()), outputName, subName, value).value
      ensures r.Err? ==> Value() == old(Value())
    {
      var updated := SetOutputValue(Value(), outputName, subName, value);
      if updated.Err? {
        return Err(updated.reason);
      }
      props := updated.value.props;
      r := Ok(());
    }

    /** `setOutputRange(name, newRange)`. */
    method SetOutputRangeOf(outputName: string, newRange: Range) returns (r: Result<()>)
      requires Wf(Value())
      modifies this
      ensures r.Ok? <==> SetOutputRange(old(Value()), outputName, newRange).Ok?
      ensures r.Ok? ==> Value() == SetOutputRange(old(Value()), outputName, newRange).value
      ensures r.Err? ==> Value() == old(Value())
    {
      var updated := SetOutputRange(Value(), outputName, newRange);
      if updated.Err? {
        return Err(updated.reason);
      }
      props := updated.value.props;
      r := Ok(());
    }

    /** `setAttributeValue(name, value)`. */
    method SetAttributeValueOf(attributeName: string, value: string) returns (r: Result<()>)
      requires Wf(Value())
      modifies this
      ensures r.Ok? <==> SetAttributeValue(old(Value()), attributeName, value).Ok?
      ensures r.Ok? ==> Value() == SetAttributeValue(old(Value()), attributeName, value).value
      ensures r.Err? ==> Value() == old(Value())
    {
      var updated := SetAttributeValue(Value(), attributeName, value);
      if updated.Err? {
        return Err(updated.reason);
      }
      props := updated.value.props;
      r := Ok(());
    }

    /** `setAttributeRange(name, newRange)`. */
    method SetAttributeRangeOf(attributeName: string, newRange: Range) returns (r: Result<()>)
      requires Wf(Value())
      modifies this
      ensures r.Ok? <==> SetAttributeRange(old(Value()), attributeName, newRange).Ok?
      ensures r.Ok? ==> Value() == SetAttributeRange(old(Value()), attributeName, newRange).value
      ensures r.Err? ==> Value() == old(Value())
    {
      var updated := SetAttributeRange(Value(), attributeName, newRange);
      if updated.Err? {
        return Err(updated.reason);
      }
      props := updated.value.props;
      r := Ok(());
    }

    /** `duplicate(nameExtension)`: a new object; this one is unchanged. */
    method DuplicateNode(nameExtension: string, id: Uuid) returns (dupe: DagNode)
      requires Wf(Value())
      ensures fresh(dupe) && dupe.Value() == Duplicate(Value(), nameExtension, id) && Wf(dupe.Value())
    {
      DuplicateShape(Value(), nameExtension, id);
      dupe := new DagNode(kind, name + nameExtension, id);
      dupe.props := dupe.props + KeptByDuplicate(Value());
    }
  }
}
