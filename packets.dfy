/** Data packets: the typed bundles of file templates that travel along the
    graph's edges. A packet has a slot -> path-template map, one optional
    integer range, and the node and output it comes from. Packet types form a
    small class hierarchy whose slot tables are fixed; a packet's origin is
    written as the location string `::<uuid>:<outputName>`. */
module Packets {
  import opened Wrappers
  import opened PyText
  import Closure
  import Frames

  // ---------------------------------------------------------------------------
  // Packet types and their slot tables
  // ---------------------------------------------------------------------------

  /** The packet classes of the two bundled plugin files. */
  datatype PacketType = Image | Lightprobe | Pointcloud | Lightfield | BoundingBox | Colorspace | TextFile

  /** The base class of a packet type, `None` for a direct child of `DataPacket`. */
  function Parent(t: PacketType): Option<PacketType> {
    if t == Lightprobe then Some(Image) else None
  }

  /** The relation "has direct subclass", as `__subclasses__` reports it. */
  function SubclassPairs(): (R: set<(PacketType, PacketType)>)
    ensures forall p, c :: (p, c) in R <==> Parent(c) == Some(p)
  {
    {(Image, Lightprobe)}
  }

  /** All transitive subclasses of `t`, excluding `t`. */
  ghost function Subtypes(t: PacketType): set<PacketType> {
    Closure.Reachable(SubclassPairs(), t)
  }

  /** The subclass closure as a table: only Image has a subclass. */
  function SubtypesOf(t: PacketType): set<PacketType> {
    if t == Image then {Lightprobe} else {}
  }

  /** The table agrees with the transitive closure of the class hierarchy. */
  lemma SubtypesOfIsClosure(t: PacketType)
    ensures SubtypesOf(t) == Subtypes(t)
  {
    var R := SubclassPairs();
    assert Closure.Successors(R, Lightprobe) == {};
    forall b | b in Subtypes(t)
      ensures b in SubtypesOf(t)
    {
      var p :| Closure.IsPath(R, p, t, b);
      Closure.ClosedContainsReachable(R, t, SubtypesOf(t), p, b);
    }
    if t == Image {
      Closure.ReachesStep(R, Image, Lightprobe);
      assert Lightprobe in Closure.Targets(R) by { assert (Image, Lightprobe) in R; }
    }
  }

  /** `allClassChildren(t)`: the worklist over `__subclasses__`. */
  method AllClassChildren(t: PacketType) returns (children: set<PacketType>)
    ensures children == SubtypesOf(t)
  {
    children := Closure.ReachableFrom(SubclassPairs(), t);
    SubtypesOfIsClosure(t);
  }

  /** The slots a packet type's own constructor writes, after its base's. */
  function OwnSlots(t: PacketType): seq<string> {
    match t
    case Image => ["filename"]
    case Lightprobe => ["transform"]
    case Pointcloud => ["filename", "transform"]
    case Lightfield => ["filename", "boundingBox", "transform"]
    case BoundingBox => ["filename", "transform"]
    case Colorspace => ["filename"]
    case TextFile => ["filename"]
  }

  /** The depth of a packet type below `DataPacket`. */
  function Depth(t: PacketType): nat {
    if t == Lightprobe then 1 else 0
  }

  /** The slot names the constructor chain writes into `filenames`. */
  function Slots(t: PacketType): (r: set<string>)
    ensures Parent(t).Some? ==> Slots(Parent(t).value) <= r
    decreases Depth(t)
  {
    var own := set k | k in OwnSlots(t);
    match Parent(t)
    case None => own
    case Some(p) => Slots(p) + own
  }

  /** `filenameDictForDataPacketType(t)`: every slot of a fresh packet, empty. */
  function FreshFilenames(t: PacketType): (m: map<string, string>)
    ensures m.Keys == Slots(t)
    ensures forall k :: k in m ==> m[k] == ""
  {
    map k | k in Slots(t) :: ""
  }

  /** The slot tables the plugin files declare. */
  lemma SlotTables()
    ensures Slots(Image) == {"filename"}
    ensures Slots(Lightprobe) == {"filename", "transform"}
    ensures Slots(Pointcloud) == {"filename", "transform"}
    ensures Slots(Lightfield) == {"filename", "boundingBox", "transform"}
    ensures Slots(BoundingBox) == {"filename", "transform"}
    ensures Slots(Colorspace) == {"filename"}
    ensures Slots(TextFile) == {"filename"}
  {
    assert "filename" != "transform";
  }

  /** A subtype has at least the slots of every type it derives from. */
  lemma SubtypeSlots(t: PacketType, s: PacketType)
    requires s in SubtypesOf(t)
    ensures Slots(t) <= Slots(s)
  {
  }

  // ---------------------------------------------------------------------------
  // UUIDs as `str(uuid)` writes them and `uuid.UUID(hex)` reads them
  // ---------------------------------------------------------------------------

  predicate IsHex(c: char) {
    '0' <= c <= '9' || 'a' <= c <= 'f' || 'A' <= c <= 'F'
  }

  predicate IsLowerHex(c: char) {
    '0' <= c <= '9' || 'a' <= c <= 'f'
  }

  /** A UUID as its 128 bits in 32 lower-case hex digits. */
  type Uuid = s: string | |s| == 32 && forall i :: 0 <= i < |s| ==> IsLowerHex(s[i])
    witness "00000000000000000000000000000000"

  /** `str(u)`: the 8-4-4-4-12 hyphenated form. */
  function UuidText(u: Uuid): (r: string)
    ensures |r| == 36 && ':' !in r && '$' !in r
  {
    u[..8] + "-" + (u[8..12] + "-" + (u[12..16] + "-" + (u[16..20] + "-" + u[20..])))
  }

  /** `s.replace(c, '')`. */
  function RemoveChar(s: string, c: char): (r: string)
    ensures c !in r
    decreases |s|
  {
    if |s| == 0 then "" else (if s[0] == c then "" else [s[0]]) + RemoveChar(s[1..], c)
  }

  /** `s.strip(chars)`. */
  function Strip(s: string, chars: set<char>): string
    decreases |s|
  {
    if |s| > 0 && s[0] in chars then Strip(s[1..], chars)
    else if |s| > 0 && s[|s| - 1] in chars then Strip(s[..|s| - 1], chars)
    else s
  }

  /** `uuid.UUID(hex)`: braces stripped from both ends, hyphens dropped,
      then exactly 32 hex digits of either case. `None` where it raises
      `ValueError`. */
  function ParseUuid(s: string): (r: Option<Uuid>)
    ensures r.Some? <==> var h := RemoveChar(Strip(s, {'{', '}'}), '-');
      |h| == 32 && forall i :: 0 <= i < |h| ==> IsHex(h[i])
    ensures r.Some? ==> r.value == Lower(RemoveChar(Strip(s, {'{', '}'}), '-'))
  {
    var h := RemoveChar(Strip(s, {'{', '}'}), '-');
    if |h| == 32 && forall i :: 0 <= i < |h| ==> IsHex(h[i]) then
      var l := Lower(h);
      assert forall i :: 0 <= i < |l| ==> IsLowerHex(l[i]);
      Some(l)
    else None
  }

  lemma {:induction false} RemoveCharAbsent(s: string, c: char)
    requires c !in s
    ensures RemoveChar(s, c) == s
    decreases |s|
  {
    if |s| > 0 {
      RemoveCharAbsent(s[1..], c);
    }
  }

  /** Dropping the hyphen after a hyphen-free piece. */
  lemma {:induction false} RemoveCharAfter(a: string, b: string, c: char)
    requires c !in a
    ensures RemoveChar(a + [c] + b, c) == a + RemoveChar(b, c)
    decreases |a|
  {
    var s := a + [c] + b;
    if |a| == 0 {
      assert s[0] == c && s[1..] == b;
    } else {
      assert s[0] == a[0] && s[1..] == a[1..] + [c] + b;
      RemoveCharAfter(a[1..], b, c);
    }
  }

  lemma UuidTextUnhyphenated(u: Uuid)
    ensures RemoveChar(UuidText(u), '-') == u
  {
    var p0, p1, p2, p3, p4 := u[..8], u[8..12], u[12..16], u[16..20], u[20..];
    assert '-' !in u;
    RemoveCharAbsent(p4, '-');
    RemoveCharAfter(p3, p4, '-');
    RemoveCharAfter(p2, p3 + "-" + p4, '-');
    RemoveCharAfter(p1, p2 + "-" + (p3 + "-" + p4), '-');
    RemoveCharAfter(p0, p1 + "-" + (p2 + "-" + (p3 + "-" + p4)), '-');
    assert p0 + (p1 + (p2 + (p3 + p4))) == u;
  }

  lemma StripNoEnds(s: string, chars: set<char>)
    requires |s| > 0 && s[0] !in chars && s[|s| - 1] !in chars
    ensures Strip(s, chars) == s
  {
  }

  /** Reading back `str(u)` gives `u`. */
  lemma UuidRoundTrip(u: Uuid)
    ensures ParseUuid(UuidText(u)) == Some(u)
  {
    var t := UuidText(u);
    assert t[0] == u[0] && t[|t| - 1] == u[31];
    StripNoEnds(t, {'{', '}'});
    UuidTextUnhyphenated(u);
    assert forall i :: 0 <= i < |u| ==> IsHex(u[i]);
    assert Lower(u) == u;
  }

  // ---------------------------------------------------------------------------
  // Location strings `::<uuid>:<outputName>`
  // ---------------------------------------------------------------------------

  /** `scenegraphLocationString(dp)`. */
  function LocationString(node: Uuid, outputName: string): string {
    "::" + UuidText(node) + ":" + outputName
  }

  predicate StartsWithColons(s: string) {
    |s| >= 2 && s[0] == ':' && s[1] == ':'
  }

  /** `s.split(":")[i]`, `None` where the index is out of range. */
  function Field(s: string, i: nat): (r: Option<string>)
    ensures r.Some? ==> ':' !in r.value
  {
    var parts := Split(s, ':');
    if i < |parts| then Some(parts[i]) else None
  }

  /** `uuidFromScenegraphLocationString(s)`: `None` for the empty string and
      for strings not starting with `::`; otherwise the third `:` field read
      as a UUID, which raises `ValueError` when it is not one. (That field
      holds no `:`, so the `urn:`/`uuid:` prefixes `uuid.UUID` drops cannot
      occur in it; the `IndexError` of a missing third field cannot happen
      after a `::` prefix.) */
  function UuidFromLocation(s: string): (r: Result<Option<Uuid>>)
    ensures r == Ok(None) <==> !StartsWithColons(s)
    ensures StartsWithColons(s) ==> Field(s, 2).Some?
    ensures r.Err? ==> StartsWithColons(s) && ParseUuid(Field(s, 2).value).None?
    ensures r.Ok? && r.value.Some? ==> ParseUuid(Field(s, 2).value) == r.value
  {
    if s == "" then Ok(None)
    else if !StartsWithColons(s) then Ok(None)
    else
      ColonFields(s);
      match ParseUuid(Field(s, 2).value)
      case None => Err("badly formed hexadecimal UUID string")
      case Some(u) => Ok(Some(u))
  }

  /** A string starting with `:` splits into an empty field and the rest's fields. */
  lemma LeadingColon(s: string)
    requires |s| > 0 && s[0] == ':'
    ensures Split(s, ':') == [""] + Split(s[1..], ':')
  {
    assert s == "" + [':'] + s[1..];
    SplitCons("", s[1..], ':');
  }

  /** A string starting with `::` splits into two empty fields and the rest's. */
  lemma ColonFields(s: string)
    requires StartsWithColons(s)
    ensures Split(s, ':') == ["", ""] + Split(s[2..], ':')
    ensures |Split(s, ':')| >= 3
  {
    LeadingColon(s);
    LeadingColon(s[1..]);
    assert s[1..][1..] == s[2..];
  }

  /** The fields of a location string: two empty ones, the UUID text, then
      the output name's own `:` fields. */
  lemma LocationFields(node: Uuid, outputName: string)
    ensures Split(LocationString(node, outputName), ':') == ["", "", UuidText(node)] + Split(outputName, ':')
  {
    ColonsFields(UuidText(node), outputName);
  }

  lemma ColonsFields(t: string, rest: string)
    requires ':' !in t
    ensures Split("::" + t + ":" + rest, ':') == ["", "", t] + Split(rest, ':')
  {
    var s := "::" + t + ":" + rest;
    assert StartsWithColons(s);
    ColonFields(s);
    assert s[2..] == t + [':'] + rest;
    SplitCons(t, rest, ':');
  }

  /** Decoding a location string gives back its node, and its fourth field
      is the output name when that name holds no `:`. */
  lemma LocationRoundTrip(node: Uuid, outputName: string)
    ensures UuidFromLocation(LocationString(node, outputName)) == Ok(Some(node))
    ensures ':' !in outputName ==> Field(LocationString(node, outputName), 3) == Some(outputName)
  {
    LocationFields(node, outputName);
    UuidRoundTrip(node);
    var s := LocationString(node, outputName);
    assert StartsWithColons(s) by { assert s[0] == ':' && s[1] == ':'; }
    assert ':' !in outputName ==> Split(outputName, ':') == [outputName];
  }

  // ---------------------------------------------------------------------------
  // The `DataPacket` object
  // ---------------------------------------------------------------------------

  /** The state of a packet: its type, its slots, its origin and its range. */
  datatype Packet = Packet(
    kind: PacketType,
    filenames: map<string, string>,
    sourceNode: Option<Uuid>,
    sourceOutputName: Option<string>,
    sequenceRange: Option<(Option<int>, Option<int>)>)

  /** A packet straight out of the constructor of type `t`. */
  function FreshPacket(t: PacketType, sourceNode: Option<Uuid>, sourceOutputName: Option<string>): (p: Packet)
    ensures p.filenames.Keys == Slots(t) && p.sequenceRange.None?
  {
    Packet(t, FreshFilenames(t), sourceNode, sourceOutputName, None)
  }

  /** `setFilename`: raises for a slot the packet does not have. */
  function WithFilename(p: Packet, descriptorName: string, filename: string): (r: Result<Packet>)
    ensures r.Err? <==> descriptorName !in p.filenames
  {
    if descriptorName !in p.filenames then
      Err("DataPacket does not contain a file descriptor named " + descriptorName)
    else Ok(p.(filenames := p.filenames[descriptorName := filename]))
  }

  /** Setting a slot changes that slot only. */
  lemma WithFilenameFrame(p: Packet, descriptorName: string, filename: string)
    requires WithFilename(p, descriptorName, filename).Ok?
    ensures var q := WithFilename(p, descriptorName, filename).value;
            q.filenames.Keys == p.filenames.Keys && q.filenames[descriptorName] == filename &&
            (forall k :: k in p.filenames && k != descriptorName ==> q.filenames[k] == p.filenames[k]) &&
            q.kind == p.kind && q.sourceNode == p.sourceNode &&
            q.sourceOutputName == p.sourceOutputName && q.sequenceRange == p.sequenceRange
  {
  }

  /** The stored range `setSequenceRange(rangeTuple)` computes: `None` for no
      tuple, else each end through `int()` with falsy ends becoming `None`. */
  function RangeOf(rangeTuple: Option<(PyVal, PyVal)>): (r: Result<Option<(Option<int>, Option<int>)>>)
    ensures rangeTuple.None? ==> r == Ok(None)
    ensures rangeTuple.Some? ==>
      (r.Ok? <==> IntOrNone(rangeTuple.value.0).Ok? && IntOrNone(rangeTuple.value.1).Ok?)
    ensures rangeTuple.Some? && r.Ok? ==>
      r.value == Some((IntOrNone(rangeTuple.value.0).value, IntOrNone(rangeTuple.value.1).value))
  {
    match rangeTuple
    case None => Ok(None)
    case Some((a, b)) =>
      var low :- IntOrNone(a);
      var high :- IntOrNone(b);
      Ok(Some((low, high)))
  }

  /** A stored range end as the `framespec` constructor receives it. */
  function PyOfEnd(e: Option<int>): PyVal {
    match e
    case None => PyNone
    case Some(i) => PyInt(i)
  }

  function PyOfRange(r: Option<(Option<int>, Option<int>)>): Option<(PyVal, PyVal)> {
    match r
    case None => None
    case Some((a, b)) => Some((PyOfEnd(a), PyOfEnd(b)))
  }

  /** What `framespec` keeps of a stored end: frame 0 is falsy and becomes `None`. */
  function SpecEnd(e: Option<int>): (r: Option<int>)
    ensures r.Some? ==> r == e && r.value != 0
  {
    match e
    case None => None
    case Some(i) => if i == 0 then None else Some(i)
  }

  function SpecStart(r: Option<(Option<int>, Option<int>)>): Option<int> {
    if r.None? then None else SpecEnd(r.value.0)
  }

  function SpecStop(r: Option<(Option<int>, Option<int>)>): Option<int> {
    if r.None? then None else SpecEnd(r.value.1)
  }

  /** The frames of slot `k`: `fileDescriptorNamed(k).frames()`. */
  function SlotFrames(p: Packet, k: string): seq<string>
    requires k in p.filenames
  {
    Frames.FrameList(p.filenames[k], SpecStart(p.sequenceRange), SpecStop(p.sequenceRange))
  }

  /** A stored integer range never makes `framespec` raise, and its frames
      are those of `SlotFrames`. */
  lemma SlotFramesAgree(p: Packet, k: string)
    requires k in p.filenames
    ensures Frames.SpecFrames(p.filenames[k], PyOfRange(p.sequenceRange)) == Ok(SlotFrames(p, k))
  {
  }

  /** `_filesExist`: a non-empty frame list every file of which exists. */
  predicate FilesExist(frames: seq<string>, fileExists: string -> bool) {
    |frames| > 0 && forall i :: 0 <= i < |frames| ==> fileExists(frames[i])
  }

  /** `dataPresent(specific)`: a truthy slot name checks that slot (a missing
      one raises `KeyError`); otherwise every slot is checked. */
  function DataPresentSpec(p: Packet, specific: Option<string>, fileExists: string -> bool): (r: Result<bool>)
    ensures r.Err? <==> specific.Some? && specific.value != "" && specific.value !in p.filenames
  {
    if specific.Some? && specific.value != "" then
      if specific.value !in p.filenames then Err("KeyError: " + specific.value)
      else Ok(FilesExist(SlotFrames(p, specific.value), fileExists))
    else Ok(forall k :: k in p.filenames ==> FilesExist(SlotFrames(p, k), fileExists))
  }

  /** A slot whose expansion is empty, or names a missing file, makes the
      whole packet's data absent; otherwise it is present. */
  lemma DataPresentAll(p: Packet, fileExists: string -> bool)
    ensures DataPresentSpec(p, None, fileExists) == Ok(false) <==>
            exists k :: k in p.filenames &&
              (|SlotFrames(p, k)| == 0 ||
               exists i :: 0 <= i < |SlotFrames(p, k)| && !fileExists(SlotFrames(p, k)[i]))
  {
  }

  /** A slot that is a single file without a range is present iff that file exists. */
  lemma DataPresentNoRange(p: Packet, k: string, fileExists: string -> bool)
    requires p.sequenceRange.None? && k in p.filenames && k != ""
    ensures DataPresentSpec(p, Some(k), fileExists) == Ok(fileExists(p.filenames[k]))
  {
    var frames := SlotFrames(p, k);
    assert frames == [p.filenames[k]];
    assert FilesExist(frames, fileExists) == fileExists(frames[0]);
  }

  class DataPacket {
    var kind: PacketType
    var filenames: map<string, string>
    var sourceNode: Option<Uuid>
    var sourceOutputName: Option<string>
    var sequenceRange: Option<(Option<int>, Option<int>)>

    function Value(): Packet
      reads this
    {
      Packet(kind, filenames, sourceNode, sourceOutputName, sequenceRange)
    }

    /** The constructor of packet type `t`: the base constructor, then each
        class's own slots, every one empty. */
    constructor (t: PacketType, node: Option<Uuid>, outputName: Option<string>)
      ensures Value() == FreshPacket(t, node, outputName)
    {
      kind := t;
      sourceNode := node;
      sourceOutputName := outputName;
      sequenceRange := None;
      filenames := FreshFilenames(t);
    }

    /** `setFilename(descriptorName, filename)`. */
    method SetFilename(descriptorName: string, filename: string) returns (r: Result<()>)
      modifies this
      ensures match WithFilename(old(Value()), descriptorName, filename)
              case Err(e) => r == Err(e) && Value() == old(Value())
              case Ok(q) => r == Ok(()) && Value() == q
    {
      if descriptorName !in filenames {
        return Err("DataPacket does not contain a file descriptor named " + descriptorName);
      }
      filenames := filenames[descriptorName := filename];
      r := Ok(());
    }

    /** `setSequenceRange(rangeTuple)`: the range is cleared first, so an end
        that `int()` rejects leaves no range at all. */
    method SetSequenceRange(rangeTuple: Option<(PyVal, PyVal)>) returns (r: Result<()>)
      modifies this
      ensures r.Err? <==> RangeOf(rangeTuple).Err?
      ensures Value() == old(Value()).(sequenceRange := if r.Ok? then RangeOf(rangeTuple).value else None)
    {
      sequenceRange := None;
      if rangeTuple.Some? {
        var lowValue := IntOrNone(rangeTuple.value.0);
        if lowValue.Err? {
          return Err(lowValue.reason);
        }
        var highValue := IntOrNone(rangeTuple.value.1);
        if highValue.Err? {
          return Err(highValue.reason);
        }
        sequenceRange := Some((lowValue.value, highValue.value));
      }
      r := Ok(());
    }

    /** `fileDescriptorNamed(descriptorName)`: a new `framespec` over that
        slot's template and the packet's range. */
    method FileDescriptorNamed(descriptorName: string) returns (r: Result<Frames.FrameSpec>)
      ensures r.Err? <==> descriptorName !in filenames
      ensures r.Ok? ==> fresh(r.value) && r.value.filename == filenames[descriptorName] &&
                        r.value.startFrame == SpecStart(sequenceRange) &&
                        r.value.endFrame == SpecStop(sequenceRange)
    {
      if descriptorName !in filenames {
        return Err("DataPacket does not contain a file descriptor named " + descriptorName);
      }
      r := Frames.NewFrameSpec(filenames[descriptorName], PyOfRange(sequenceRange));
    }

    /** `dataPresent(specificFileDescriptorName)`, stopping at the first slot
        whose files are not all there. */
    method DataPresent(specific: Option<string>, fileExists: string -> bool) returns (r: Result<bool>)
      ensures r == DataPresentSpec(Value(), specific, fileExists)
    {
      var fdNames: set<string>;
      if specific.Some? && specific.value != "" {
        if specific.value !in filenames {
          return Err("KeyError: " + specific.value);
        }
        fdNames := {specific.value};
      } else {
        fdNames := filenames.Keys;
      }
      ghost var all := fdNames;
      while fdNames != {}
        invariant fdNames <= all <= filenames.Keys
        invariant forall k :: k in all - fdNames ==> FilesExist(SlotFrames(Value(), k), fileExists)
        decreases |fdNames|
      {
        var fileDescriptor :| fileDescriptor in fdNames;
        var present := SlotPresent(fileDescriptor, fileExists);
        if !present {
          return Ok(false);
        }
        fdNames := fdNames - {fileDescriptor};
      }
      r := Ok(true);
    }

    /** One step of `dataPresent`: a framespec over slot `k`, then `_filesExist`. */
    method SlotPresent(k: string, fileExists: string -> bool) returns (b: bool)
      requires k in filenames
      ensures b == FilesExist(SlotFrames(Value(), k), fileExists)
    {
      var spec := Frames.NewFrameSpec(filenames[k], PyOfRange(sequenceRange));
      b := FilesExistIn(spec.value, fileExists);
    }
  }

  /** `_filesExist(framespecObject)`. */
  method FilesExistIn(spec: Frames.FrameSpec, fileExists: string -> bool) returns (b: bool)
    ensures b == FilesExist(Frames.FrameList(spec.filename, spec.startFrame, spec.endFrame), fileExists)
  {
    var files := spec.Frames();
    if |files| == 0 {
      return false;
    }
    for i := 0 to |files|
      invariant forall j :: 0 <= j < i ==> fileExists(files[j])
    {
      if !fileExists(files[i]) {
        return false;
      }
    }
    b := true;
  }
}
