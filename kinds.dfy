/*
  The concrete node kinds' command generation: `executeList`, `preProcess`,
  `postProcess` and `validate` of the bundled node classes and of the
  generated read nodes.

  A command list is a sequence of items: a plain argument, or (in the split
  mode of an embarrassingly parallel node) a whole per-frame argument vector.
  `executeList` may also return Python's `None`, which is `Option.None` here,
  and any exception it raises is an `Err`.
*/
module Kinds {
  import opened Wrappers
  import opened PyText
  import Variables
  import Frames
  import Packets
  import Nodes

  type Node = Nodes.Node

  /** One element of an `appList`. */
  datatype Item = Arg(text: string) | Run(args: seq<string>)

  function Args(ws: seq<string>): (r: seq<Item>)
    ensures |r| == |ws| && forall i :: 0 <= i < |ws| ==> r[i] == Arg(ws[i])
  {
    seq(|ws|, i requires 0 <= i < |ws| => Arg(ws[i]))
  }

  /** The three fields of a `framespec` the commands read. */
  datatype Spec = Spec(filename: string, startFrame: Option<int>, endFrame: Option<int>)

  function SpecFrames(s: Spec): seq<string> {
    Frames.FrameList(s.filename, s.startFrame, s.endFrame)
  }

  /** Python truthiness of an optional frame number: set and not zero. */
  predicate IsSet(frame: Option<int>) {
    frame.Some? && frame.value != 0
  }

  /** `dataPacketDict[self.inputNamed(input)].fileDescriptorNamed(slot)`: a
      `KeyError` when no packet is bound to the input, an error when the
      packet has no such slot; otherwise the slot's template and the packet's
      range, which expand to the slot's frames. */
  function InputSlot(dataPackets: map<string, Packets.Packet>, input: string, slot: string): (r: Result<Spec>)
    ensures r.Ok? <==> input in dataPackets && slot in dataPackets[input].filenames
    ensures r.Ok? ==>
      r.value.filename == dataPackets[input].filenames[slot] &&
      r.value.startFrame == Packets.SpecStart(dataPackets[input].sequenceRange) &&
      r.value.endFrame == Packets.SpecStop(dataPackets[input].sequenceRange) &&
      SpecFrames(r.value) == Packets.SlotFrames(dataPackets[input], slot)
  {
    if input !in dataPackets then Err("KeyError: " + input)
    else
      var p := dataPackets[input];
      if slot !in p.filenames then Err("DataPacket does not contain a file descriptor named " + slot)
      else Ok(Spec(p.filenames[slot], Packets.SpecStart(p.sequenceRange), Packets.SpecStop(p.sequenceRange)))
  }

  /** `self.outputFramespec(name, subName)`: the substituted value and range. */
  function OutputSpec(n: Node, name: string, subName: string, scope: Variables.Scope): (r: Result<Spec>)
    requires Nodes.Wf(n)
    ensures Nodes.OutputValue(n, name, subName, scope, true).Err? ==> r.Err?
    ensures Nodes.OutputValue(n, name, subName, scope, true).Ok? ==>
      var value := Nodes.OutputValue(n, name, subName, scope, true).value;
      var range := Nodes.PyOfTextRange(Nodes.OutputRange(n, name, scope, true).value);
      (r.Ok? <==> Frames.SpecFrames(value, range).Ok?) &&
      (r.Ok? ==> r.value.filename == value && SpecFrames(r.value) == Frames.SpecFrames(value, range).value)
  {
    var value :- Nodes.OutputValue(n, name, subName, scope, true);
    var range := Nodes.OutputRange(n, name, scope, true).value;
    match Nodes.PyOfTextRange(range)
    case None => Ok(Spec(value, None, None))
    case Some((a, b)) =>
      var s :- IntOrNone(a);
      var e :- IntOrNone(b);
      Ok(Spec(value, s, e))
  }

  /** `'%d-%d' % (startFrame, endFrame)`: `TypeError` when an end is `None`. */
  function FrameRangeText(s: Spec): (r: Result<string>)
    ensures r.Ok? <==> s.startFrame.Some? && s.endFrame.Some?
    ensures r.Ok? ==> r.value == IntToStr(s.startFrame.value) + "-" + IntToStr(s.endFrame.value)
  {
    if s.startFrame.None? || s.endFrame.None? then Err("TypeError: %d format: a number is required")
    else Ok(IntToStr(s.startFrame.value) + "-" + IntToStr(s.endFrame.value))
  }

  /** `self.attributeValue(name)`, substituted. */
  function Attribute(n: Node, name: string, scope: Variables.Scope): (r: Result<string>)
    requires Nodes.Wf(n)
    ensures r.Ok? <==> name in n.props && '@' !in name
  {
    Nodes.AttributeValue(n, name, scope, true)
  }

  /** What a command reads from its own node: `self.outputFramespec` and
      `self.attributeValue`, both with variables substituted. */
  datatype Accessors = Accessors(output: (string, string) -> Result<Spec>, attribute: string -> Result<string>)

  /** The reads of a node under a variable scope. */
  function NodeAccessors(n: Node, scope: Variables.Scope): (r: Accessors)
    requires Nodes.Wf(n)
    ensures forall name, subName :: r.output(name, subName) == OutputSpec(n, name, subName, scope)
    ensures forall name :: r.attribute(name) == Attribute(n, name, scope)
  {
    Accessors((name, subName) => OutputSpec(n, name, subName, scope), name => Attribute(n, name, scope))
  }

  // ---------------------------------------------------------------------------
  // LightprobeReduce
  // ---------------------------------------------------------------------------

  /** The frame option of LightprobeReduce: present exactly when the input's
      start frame is set, and then a `None` end frame raises. */
  function LightprobeFrameOption(probes: Spec): (r: Result<seq<string>>)
    ensures r.Err? <==> IsSet(probes.startFrame) && probes.endFrame.None?
    ensures r.Ok? ==> (r.value != [] <==> IsSet(probes.startFrame))
    ensures r.Ok? && r.value != [] ==> r.value == ["-t " + FrameRangeText(probes).value]
  {
    if IsSet(probes.startFrame) then
      var text :- FrameRangeText(probes);
      Ok(["-t " + text])
    else Ok([])
  }

  /** `DagNodeLightprobeReduce.executeList`. The command starts with the
      program, carries the frame option exactly when the input's start frame
      is set, and its last two options both name the output image file (the
      output's `transform` sub-output is looked up but never used). */
  function LightprobeReduceList(node: Accessors, dataPackets: map<string, Packets.Packet>): (r: Result<seq<string>>)
    ensures r.Ok? <==>
      InputSlot(dataPackets, "Lightprobe", "filename").Ok? && InputSlot(dataPackets, "Lightprobe", "transform").Ok? &&
      node.output("Lightprobe", "filename").Ok? && node.output("Lightprobe", "transform").Ok? &&
      LightprobeFrameOption(InputSlot(dataPackets, "Lightprobe", "filename").value).Ok? &&
      node.attribute("resultCount").Ok?
    ensures r.Ok? ==>
      var probes := InputSlot(dataPackets, "Lightprobe", "filename").value;
      var out := node.output("Lightprobe", "filename").value;
      var k := if IsSet(probes.startFrame) then 1 else 0;
      |r.value| == 11 + k && r.value[0] == "reduceLightprobes" &&
      (IsSet(probes.startFrame) ==> r.value[1] == "-t " + FrameRangeText(probes).value) &&
      r.value[1 + k] == "-probe" && r.value[2 + k] == probes.filename &&
      r.value[3 + k] == "-transform" && r.value[4 + k] == InputSlot(dataPackets, "Lightprobe", "transform").value.filename &&
      r.value[5 + k] == "-resultCount" && r.value[6 + k] == node.attribute("resultCount").value &&
      r.value[7 + k] == "-output" && r.value[8 + k] == out.filename &&
      r.value[9 + k] == "-outputTransforms" && r.value[10 + k] == out.filename
  {
    var probes :- InputSlot(dataPackets, "Lightprobe", "filename");
    var transforms :- InputSlot(dataPackets, "Lightprobe", "transform");
    var outputImages :- node.output("Lightprobe", "filename");
    var outputTransforms :- node.output("Lightprobe", "transform");
    var frameOption :- LightprobeFrameOption(probes);
    var resultCount :- node.attribute("resultCount");
    Ok(["reduceLightprobes"] + frameOption +
       ["-probe", probes.filename, "-transform", transforms.filename, "-resultCount", resultCount,
        "-output", outputImages.filename, "-outputTransforms", outputImages.filename])
  }

  // ---------------------------------------------------------------------------
  // ColorspaceApply
  // ---------------------------------------------------------------------------

  /** The range command of ColorspaceApply as written: added whenever the
      input expands to at least one frame, which an input without a range
      always does, and formatting a missing end raises. */
  function ColorspaceRangeAsWritten(inputImages: Spec): Result<seq<string>> {
    if SpecFrames(inputImages) != [] then
      var text :- FrameRangeText(inputImages);
      Ok(["range", "-t " + text])
    else Ok([])
  }

  /** As written, a single image (an input without a range) cannot be
      processed: its range command always raises. */
  lemma ColorspaceRangeSingleImage(filename: string)
    ensures ColorspaceRangeAsWritten(Spec(filename, None, None)).Err?
  {
    assert SpecFrames(Spec(filename, None, None)) == [filename];
  }

  /** The range command as evidently intended ("if there are multiple
      frames"): added only when the input has both ends and expands to at
      least one frame. It never raises, and agrees with the written one
      whenever both ends are present. */
  function ColorspaceRange(inputImages: Spec): (r: seq<string>)
    ensures r != [] <==> inputImages.startFrame.Some? && inputImages.endFrame.Some? && SpecFrames(inputImages) != []
    ensures r != [] ==> r == ["range", "-t " + FrameRangeText(inputImages).value]
    ensures inputImages.startFrame.Some? && inputImages.endFrame.Some? ==> Ok(r) == ColorspaceRangeAsWritten(inputImages)
    ensures ColorspaceRangeAsWritten(inputImages).Ok? ==> Ok(r) == ColorspaceRangeAsWritten(inputImages)
  {
    if inputImages.startFrame.Some? && inputImages.endFrame.Some? && SpecFrames(inputImages) != [] then
      ["range", "-t " + FrameRangeText(inputImages).value]
    else []
  }

  /** The arguments after the range command. */
  function ColorspaceArgs(inputImages: Spec, curve: string, outputImages: Spec): seq<string> {
    ["colorspaceApply", "-in", inputImages.filename, "-colorspace", curve, "-out", outputImages.filename]
  }

  /** `DagNodeColorspaceApply.executeList` as written. */
  function ColorspaceApplyListAsWritten(node: Accessors, dataPackets: map<string, Packets.Packet>): (r: Result<seq<string>>)
    ensures r.Ok? ==>
      InputSlot(dataPackets, "ImageTypes", "filename").Ok? &&
      ColorspaceRangeAsWritten(InputSlot(dataPackets, "ImageTypes", "filename").value).Ok?
  {
    var inputImages :- InputSlot(dataPackets, "ImageTypes", "filename");
    var outputImages :- node.output("ImageTypes", "filename");
    var rangeCommand :- ColorspaceRangeAsWritten(inputImages);
    var curve :- node.attribute("colorCurveFile");
    Ok(rangeCommand + ColorspaceArgs(inputImages, curve, outputImages))
  }

  /** As written, ColorspaceApply raises for every input packet without a
      range. */
  lemma ColorspaceApplySingleImageRaises(node: Accessors, dataPackets: map<string, Packets.Packet>)
    requires "ImageTypes" in dataPackets && dataPackets["ImageTypes"].sequenceRange.None?
    ensures ColorspaceApplyListAsWritten(node, dataPackets).Err?
  {
    var r := InputSlot(dataPackets, "ImageTypes", "filename");
    if r.Ok? {
      ColorspaceRangeSingleImage(r.value.filename);
    }
  }

  /** `DagNodeColorspaceApply.executeList` with the corrected range command:
      it raises only for a missing packet, slot, output or attribute, it is
      the program's arguments, preceded by the range command exactly when
      the input has a range of at least one frame, and it agrees with the
      written command wherever that one does not raise. */
  function ColorspaceApplyList(node: Accessors, dataPackets: map<string, Packets.Packet>): (r: Result<seq<string>>)
    ensures r.Ok? <==>
      InputSlot(dataPackets, "ImageTypes", "filename").Ok? && node.output("ImageTypes", "filename").Ok? &&
      node.attribute("colorCurveFile").Ok?
    ensures r.Ok? ==>
      var inputImages := InputSlot(dataPackets, "ImageTypes", "filename").value;
      var withRange := inputImages.startFrame.Some? && inputImages.endFrame.Some? && SpecFrames(inputImages) != [];
      var k := if withRange then 2 else 0;
      |r.value| == 7 + k && (withRange <==> r.value[0] == "range") &&
      r.value[k] == "colorspaceApply" && r.value[k + 1] == "-in" && r.value[k + 2] == inputImages.filename &&
      r.value[k + 5] == "-out" && r.value[k + 6] == node.output("ImageTypes", "filename").value.filename
    ensures ColorspaceApplyListAsWritten(node, dataPackets).Ok? ==> r == ColorspaceApplyListAsWritten(node, dataPackets)
  {
    var inputImages :- InputSlot(dataPackets, "ImageTypes", "filename");
    var outputImages :- node.output("ImageTypes", "filename");
    var rangeCommand := ColorspaceRange(inputImages);
    var curve :- node.attribute("colorCurveFile");
    Ok(rangeCommand + ColorspaceArgs(inputImages, curve, outputImages))
  }

  // ---------------------------------------------------------------------------
  // ImageTransform
  // ---------------------------------------------------------------------------

  /** One per-frame vector of the split mode. */
  function NukeRun(inFrame: string, scale: string, outFrame: string): seq<string> {
    ["nuke", "-infile", inFrame, "-scale", scale, "-outfile", outFrame]
  }

  function Min(a: nat, b: nat): nat { if a < b then a else b }

  /** The vectors of the split mode, pairing frames as `zip` does: as many
      as the shorter expansion, the i-th reading the i-th input frame and
      writing the i-th output frame. */
  function SplitRuns(ins: seq<string>, outs: seq<string>, scale: string): (r: seq<seq<string>>)
    ensures |r| == Min(|ins|, |outs|)
    ensures forall i :: 0 <= i < |r| ==> r[i] == NukeRun(ins[i], scale, outs[i])
  {
    seq(Min(|ins|, |outs|), i requires 0 <= i < Min(|ins|, |outs|) => NukeRun(ins[i], scale, outs[i]))
  }

  /** The loop of the split mode, appending one vector per zipped pair. */
  method SplitRunsLoop(ins: seq<string>, outs: seq<string>, scale: string) returns (runs: seq<seq<string>>)
    ensures |runs| == Min(|ins|, |outs|)
    ensures forall i :: 0 <= i < |runs| ==> runs[i] == NukeRun(ins[i], scale, outs[i])
  {
    runs := [];
    var i := 0;
    while i < |ins| && i < |outs|
      invariant 0 <= i <= Min(|ins|, |outs|)
      invariant |runs| == i
      invariant forall j :: 0 <= j < i ==> runs[j] == NukeRun(ins[j], scale, outs[j])
    {
      runs := runs + [NukeRun(ins[i], scale, outs[i])];
      i := i + 1;
    }
  }

  /** Over two ranges, the i-th vector reads input frame `start + i` and
      writes output frame `start' + i`. */
  lemma SplitRunsFrames(inputImages: Spec, outputImages: Spec, scale: string, i: nat)
    requires inputImages.startFrame.Some? && inputImages.endFrame.Some?
    requires outputImages.startFrame.Some? && outputImages.endFrame.Some?
    requires i < |SplitRuns(SpecFrames(inputImages), SpecFrames(outputImages), scale)|
    ensures var run := SplitRuns(SpecFrames(inputImages), SpecFrames(outputImages), scale)[i];
      run[2] == Frames.FrameName(inputImages.filename, inputImages.startFrame.value + i) &&
      run[6] == Frames.FrameName(outputImages.filename, outputImages.startFrame.value + i)
  {
  }

  /** The flat command of ImageTransform: the frame option is there exactly
      when both input ends are set. */
  function NukeFlat(inputImages: Spec, scale: string, outputImages: Spec): (r: seq<string>)
    ensures var framed := IsSet(inputImages.startFrame) && IsSet(inputImages.endFrame);
      |r| == (if framed then 9 else 7) && r[0] == "nuke" &&
      (framed <==> r[1] == "-t") &&
      (framed ==> r[2] == FrameRangeText(inputImages).value) &&
      r[|r| - 6] == "-infile" && r[|r| - 5] == inputImages.filename &&
      r[|r| - 4] == "-scale" && r[|r| - 3] == scale &&
      r[|r| - 2] == "-outfile" && r[|r| - 1] == outputImages.filename
  {
    ["nuke"] +
      (if IsSet(inputImages.startFrame) && IsSet(inputImages.endFrame) then ["-t", FrameRangeText(inputImages).value] else []) +
      ["-infile", inputImages.filename, "-scale", scale, "-outfile", outputImages.filename]
  }

  function Runs(runs: seq<seq<string>>): (r: seq<Item>)
    ensures |r| == |runs| && forall i :: 0 <= i < |runs| ==> r[i] == Run(runs[i])
  {
    seq(|runs|, i requires 0 <= i < |runs| => Run(runs[i]))
  }

  /** `DagNodeImageTransform.executeList`. `scaleText` stands for
      `str(float(scale) / 100.0)`, which raises for a non-numeric scale. In
      split mode it is evaluated once per pair, so with no pairs the scale
      is never read. */
  function ImageTransformList(node: Accessors, dataPackets: map<string, Packets.Packet>, splitOperations: bool,
                              scaleText: string -> Result<string>): (r: Result<seq<Item>>)
    ensures r.Ok? ==> InputSlot(dataPackets, "ImageTypes", "filename").Ok? && node.output("ImageTypes", "filename").Ok?
    ensures r.Ok? && !splitOperations ==>
      node.attribute("scale").Ok? && scaleText(node.attribute("scale").value).Ok? &&
      r.value == Args(NukeFlat(InputSlot(dataPackets, "ImageTypes", "filename").value,
                               scaleText(node.attribute("scale").value).value,
                               node.output("ImageTypes", "filename").value))
    ensures r.Ok? && splitOperations ==>
      var ins := SpecFrames(InputSlot(dataPackets, "ImageTypes", "filename").value);
      var outs := SpecFrames(node.output("ImageTypes", "filename").value);
      |r.value| == Min(|ins|, |outs|) &&
      (|r.value| > 0 ==>
         node.attribute("scale").Ok? && scaleText(node.attribute("scale").value).Ok? &&
         forall i :: 0 <= i < |r.value| ==>
           r.value[i] == Run(NukeRun(ins[i], scaleText(node.attribute("scale").value).value, outs[i])))
  {
    var inputImages :- InputSlot(dataPackets, "ImageTypes", "filename");
    var outputImages :- node.output("ImageTypes", "filename");
    if !splitOperations then
      var scale :- node.attribute("scale");
      var scaled :- scaleText(scale);
      Ok(Args(NukeFlat(inputImages, scaled, outputImages)))
    else
      var ins := SpecFrames(inputImages);
      var outs := SpecFrames(outputImages);
      if Min(|ins|, |outs|) == 0 then Ok([])
      else
        var scale :- node.attribute("scale");
        var scaled :- scaleText(scale);
        Ok(Runs(SplitRuns(ins, outs, scaled)))
  }

  // ---------------------------------------------------------------------------
  // Ls and Awk
  // ---------------------------------------------------------------------------

  /** `DagNodeLs.executeList`: `-la` is there iff the `long` attribute,
      lower-cased, is not `false`; the listed path is not used. */
  function LsList(node: Accessors): (r: Result<seq<string>>)
    ensures r.Ok? <==> node.output("File", "filename").Ok? && node.attribute("long").Ok?
    ensures r.Ok? ==>
      var long := Lower(node.attribute("long").value);
      var out := node.output("File", "filename").value;
      |r.value| >= 3 && r.value[0] == "ls" && (long != "false" <==> |r.value| == 4) && (long == "false" <==> |r.value| == 3) &&
      (long != "false" ==> r.value[1] == "-la") &&
      r.value[|r.value| - 2] == ">" && r.value[|r.value| - 1] == out.filename
  {
    var outputTextFile :- node.output("File", "filename");
    var long :- node.attribute("long");
    Ok(["ls"] + (if Lower(long) != "false" then ["-la"] else []) + [">", outputTextFile.filename])
  }

  /** The default `long` attribute, `True`, lists in long form. */
  lemma LsDefaultIsLong(s: string)
    requires s == "True"
    ensures Lower(s) != "false"
  {
    assert Lower(s)[0] == 't';
  }

  /** `DagNodeAwk.executeList`: exactly `awk 'command' input > output`. */
  function AwkList(node: Accessors, dataPackets: map<string, Packets.Packet>): (r: Result<seq<string>>)
    ensures r.Ok? <==>
      InputSlot(dataPackets, "File", "filename").Ok? &&
      node.output("File", "filename").Ok? && node.attribute("command").Ok?
    ensures r.Ok? ==>
      r.value == ["awk", "'" + node.attribute("command").value + "'",
                  InputSlot(dataPackets, "File", "filename").value.filename, ">",
                  node.output("File", "filename").value.filename]
  {
    if "File" !in dataPackets then Err("KeyError: File")
    else
      var outputTextFile :- node.output("File", "filename");
      var command :- node.attribute("command");
      var input :- InputSlot(dataPackets, "File", "filename");
      Ok(["awk", "'" + command + "'", input.filename, ">", outputTextFile.filename])
  }

  // ---------------------------------------------------------------------------
  // Dispatch
  // ---------------------------------------------------------------------------

  /** `executeList(dataPacketDict, splitOperations)` of each kind.
      StructureFromMotion and the read nodes return `None`; LightfieldRasterize
      always raises, on the `tempfile` module its file does not import. */
  function ExecuteList(n: Node, dataPackets: map<string, Packets.Packet>, splitOperations: bool,
                       scope: Variables.Scope, scaleText: string -> Result<string>): (r: Result<Option<seq<Item>>>)
    requires Nodes.Wf(n)
    ensures n.kind.StructureFromMotion? || n.kind.Read? ==> r == Ok(None)
    ensures n.kind == Nodes.LightfieldRasterize ==> r.Err?
    ensures r.Ok? && r.value.Some? && !(n.kind == Nodes.ImageTransform && splitOperations) ==>
      forall i :: 0 <= i < |r.value.value| ==> r.value.value[i].Arg?
  {
    KindCommands(n.kind, NodeAccessors(n, scope), dataPackets, splitOperations, scaleText)
  }

  /** The dispatch of `executeList` on the kind, given the node's reads. */
  function KindCommands(kind: Nodes.Kind, node: Accessors, dataPackets: map<string, Packets.Packet>,
                        splitOperations: bool, scaleText: string -> Result<string>): (r: Result<Option<seq<Item>>>)
    ensures kind.StructureFromMotion? || kind.Read? ==> r == Ok(None)
    ensures kind == Nodes.LightfieldRasterize ==> r.Err?
    ensures r.Ok? && r.value.Some? && !(kind == Nodes.ImageTransform && splitOperations) ==>
      forall i :: 0 <= i < |r.value.value| ==> r.value.value[i].Arg?
  {
    match kind
    case LightprobeReduce => CommandLine(LightprobeReduceList(node, dataPackets))
    case StructureFromMotion => Ok(None)
    case ColorspaceApply => CommandLine(ColorspaceApplyList(node, dataPackets))
    case LightfieldRasterize => Err("NameError: global name 'tempfile' is not defined")
    case ImageTransform => TransformCommands(ImageTransformList(node, dataPackets, splitOperations, scaleText), splitOperations)
    case Ls => CommandLine(LsList(node))
    case Awk => CommandLine(AwkList(node, dataPackets))
    case Read(_) => Ok(None)
  }

  /** A kind's command words as one command line, or its error. */
  function CommandLine(ws: Result<seq<string>>): (r: Result<Option<seq<Item>>>)
    ensures ws.Err? ==> r == Err(ws.reason)
    ensures ws.Ok? ==> r == Ok(Some(Args(ws.value)))
    ensures r.Ok? ==> r.value.Some? && forall i :: 0 <= i < |r.value.value| ==> r.value.value[i].Arg?
  {
    var words :- ws;
    Ok(Some(Args(words)))
  }

  /** The transform node's items, which are command words unless split. */
  function TransformCommands(items: Result<seq<Item>>, splitOperations: bool): (r: Result<Option<seq<Item>>>)
    requires items.Ok? && !splitOperations ==> forall i :: 0 <= i < |items.value| ==> items.value[i].Arg?
    ensures items.Err? ==> r == Err(items.reason)
    ensures items.Ok? ==> r == Ok(Some(items.value))
    ensures r.Ok? && !splitOperations ==> r.value.Some? && forall i :: 0 <= i < |r.value.value| ==> r.value.value[i].Arg?
  {
    var xs :- items;
    Ok(Some(xs))
  }

  /** `preProcess`: no kind overrides the empty default. */
  function PreProcess(k: Nodes.Kind): seq<string> {
    []
  }

  /** `postProcess`: only LightfieldRasterize has one. */
  function PostProcess(k: Nodes.Kind): (r: seq<string>)
    ensures r != [] <==> k == Nodes.LightfieldRasterize
  {
    if k == Nodes.LightfieldRasterize then ["source", "~/countFilesToBooger"] else []
  }

  /** `validate`: every kind accepts, except a read node, which raises when
      it has an output and the data of the first packet of its scene graph
      handle is not on disk. The generated loop checks that same packet
      once per output. */
  function Validate(n: Node, scope: Variables.Scope, fileExists: string -> bool): (r: Result<bool>)
    requires Nodes.Wf(n)
    ensures !n.kind.Read? || Nodes.OutputNames(n) == [] ==> r == Ok(true)
    ensures r.Ok? ==> r.value
    ensures n.kind.Read? && Nodes.OutputNames(n) != [] ==>
      (r.Ok? <==> Nodes.Handled(n, map[], scope)[0].Ok? &&
                  Packets.DataPresentSpec(Nodes.Handled(n, map[], scope)[0].value, None, fileExists) == Ok(true))
  {
    var names := Nodes.OutputNames(n);
    if !n.kind.Read? || names == [] then Ok(true)
    else
      var packet :- Nodes.Handled(n, map[], scope)[0];
      var present := Packets.DataPresentSpec(packet, None, fileExists).value;
      if !present then Err("Data is not present for " + names[0] + " output.")
      else Ok(true)
  }
}
