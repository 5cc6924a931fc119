# depends — a verified model of the workflow planner

Depends is a node-based workflow tool: a user builds a directed acyclic graph
of *nodes* (image readers, converters, command-line tools), each with named
inputs, outputs and attributes; outputs carry typed *data packets* that
describe files on disk (file names with `#` frame patterns and optional frame
ranges); and the tool turns the graph into an ordered *execution recipe* of
shell commands. This project models the core of that planner in Dafny and
proves properties of the model:

- the workflow variable table and `$NAME` / `$$NAME` substitution
  (`Variables`), frame-number patterns (`Frames`), file-name versioning and
  unique group names (`Util`), and the Python string operations they rest on
  (`PyText`);
- data packet types, their slot tables, the subtype closure and the
  `uuid:output` location codec (`Packets`);
- the node value: properties, inputs, outputs, attributes, duplication and
  the packets a node hands downstream (`Nodes`), and per-kind command
  generation, pre/post steps and validation (`Kinds`);
- the graph itself (`Dag`): nodes keyed by UUID, consumer/provider edges kept
  acyclic, stale marks, node groups, dependency ordering and the queries built
  on it, with a class `Dag.Dag` whose methods update the graph in place;
- saving and restoring a snapshot of the graph and the snapshot diff
  (`Snapshots`);
- the main window's reactions to edits: range propagation when an input or
  output changes (`Propagation`), disconnection (`Disconnection`), marking
  downstream nodes stale (`Stale`), finding where variables are used
  (`Usage`);
- the sanity check that runs before execution (`Sanity`) and the building of
  the execution recipe, with group interleaving (`Plan`).

Generic reachability, worklists and acyclicity by ranking live in
`Closure`; `Option` and `Result` live in `Wrappers`. Acyclicity of the graph
is stated as the existence of a ranking that decreases along every edge, and
the connect operation refuses exactly the edges that would close a cycle.

Where the prose description of the tool and its code disagree, the model
follows the code, except at the four defects listed under "## Findings":
each is modelled as written by its own member, and the operations built on
it (node reads, command generation, the execution plan, and the group name
chosen when grouping selected nodes) use the corrected definition;
"## Left out" names every member this affects. Two places where
following the code matters: the colorspace-apply node
builds one flat command list and ignores the option that would split its
work into per-frame operations, so its commands are never interleaved per
frame; and connecting an edge that closes a cycle reports the failure but
leaves the edge in the graph, which the model keeps (the connect operation
returns both the outcome and the resulting graph).

## Model

| member | source | states |
|---|---|---|
| Closure.ReachableFrom | depends_util.py:27-40 | the worklist returns exactly the set of everything reachable from the start in one or more steps |
| Closure.ClosedContainsReachable | depends_util.py:34-39 | a set that holds the start's successors and is closed under the relation holds everything reachable |
| Closure.ReachesTrans | depends_dag.py:240-253 | reachability is transitive |
| Closure.ReachesShape | depends_dag.py:240-253 | a reachable item is the target of some step and is reached through one of the start's successors |
| Closure.Converse | depends_dag.py:240-253 | the converse relation holds a pair exactly when the relation holds it reversed |
| Closure.CheckAcyclic | depends_dag.py:128-130 | Kahn's test succeeds exactly when the relation is acyclic, and on success yields a ranking that decreases along every step |
| Closure.RankDecreases | depends_dag.py:128-130 | under a ranking, reachability strictly decreases the rank, so nothing reaches itself |
| Closure.StuckIsCyclic | depends_dag.py:128-130 | a non-empty set in which every item still has a successor inside the set admits no ranking |
| Closure.AcyclicSubset | depends_dag.py:133-142 | removing items or steps keeps a ranking valid, so a graph stays acyclic |
| PyText.NatToStrValue | depends_util.py:176 | the decimal text of a natural number reads back as that number |
| PyText.IntToStr | depends_util.py:176 | `str(i)` is non-empty digits, with a leading `-` and at least one digit for a negative number |
| PyText.ZFill | depends_util.py:176 | `zfill` pads to exactly the larger of the text's length and the width |
| PyText.RJustZero | depends_dag.py:372 | `rjust(w, '0')` pads to the larger of the length and the width and keeps the text as its suffix |
| PyText.IntOrNone | depends_data_packet.py:125-126 | `int(v) if v else None` is `None` exactly for a falsy value, never fails on an integer, and only a string can give 0 |
| PyText.IntToStrRoundTrip | depends_util.py:171-176 | formatting an integer and parsing it back gives the integer |
| PyText.IntOrNoneOfStr | depends_data_packet.py:125-126 | a range end stored as text, even `"0"`, reads back as the same integer |
| PyText.ZFillRoundTrip | depends_util.py:277 | zero padding never changes the value `int()` reads back |
| PyText.ZFillNegative | depends_util.py:277 | padding a negative number inserts the zeros after the sign and keeps its value |
| PyText.Find | depends_util.py:158-159 | `find` returns -1 exactly when the character is absent, otherwise its first position |
| PyText.Split | depends_data_packet.py:61 | `split` gives at least one piece and no piece holds the separator |
| PyText.JoinSplit | depends_util.py:143 | splitting and re-joining on the same separator gives the string back |
| PyText.SplitJoin | depends_data_packet.py:61-73 | joining separator-free pieces and splitting again gives the pieces back |
| PyText.Unescape | depends_variables.py:138 | `replace('\$', '$')` never lengthens the text |
| PyText.UnescapeWithout | depends_variables.py:138 | a text without the escaped character is unchanged by unescaping |
| PyText.UnescapeConcat | depends_util.py:281 | unescaping distributes over a concatenation whose seam is not an escape |
| PyText.UnescapeNoBackslash | depends_variables.py:138 | a text without a backslash is unchanged by unescaping |
| PyText.TrailingCount | depends_util.py:161 | the count of trailing characters is exact: those characters are all `c` and the one before is not |
| PyText.Lower | nodes/samplenodes.py:46 | lower-casing keeps the length, maps each upper-case ASCII letter to its lower-case letter, keeps every other character, and leaves no upper-case letter |
| Variables.VariableTable.constructor | depends_variables.py:19-23 | the variable table starts empty |
| Variables.VariableTable.Add | depends_variables.py:29-36 | a new name is stored as an empty, writable variable; an existing name is refused and the table is left as it was |
| Variables.VariableTable.Remove | depends_variables.py:39-46 | removes exactly that name; an unknown name is refused and nothing changes |
| Variables.VariableTable.Setx | depends_variables.py:49-58 | replaces value and read-only flag of an existing name only; an unknown name is refused and nothing changes |
| Variables.VariableTable.Names | depends_variables.py:61-65 | the names returned are exactly the table's keys |
| Variables.VariableTable.Value | depends_variables.py:68-75 | succeeds exactly for a defined name, with its stored value |
| Variables.VariableTable.ChangeableList | depends_variables.py:78-88 | lists a (name, value) record exactly for each variable whose read-only flag is off, each name once |
| Variables.ValuesOf | depends_variables.py:126-127 | the lookup used by substitution has the same names as the table and each maps to the stored value |
| Variables.Matches | depends_variables.py:98-99 | the scan's matches start at or after the scan position, each is a run of dollars followed by a name, and they are ordered and disjoint |
| Variables.MatchStartsExactly | depends_variables.py:98 | the scan reports a match at a position exactly when a run of exactly `d` unescaped dollars starts there |
| Variables.NamesInExactly | depends_variables.py:91-112 | a name is reported exactly when some unescaped run of exactly `d` dollars is followed by that name (both directions) |
| Variables.NamesInSound | depends_variables.py:99-101 | every reported name has a position where its run of dollars starts |
| Variables.NamesInComplete | depends_variables.py:99-101 | every run of dollars followed by a name is reported |
| Variables.NoDollarNoMatch | depends_variables.py:98 | a string without `$` has no matches |
| Variables.Present | depends_variables.py:91-112 | the single-dollar and double-dollar lists hold exactly the names reported by the scans, without duplicates |
| Variables.CollectNames | depends_variables.py:99-102 | the collected names are exactly the matches' names, each once |
| Variables.VariableTable.Substitute | depends_variables.py:115-139 | the loop over the matches, splicing at offsets taken from the string as it was when the pass began, computes the as-written substitution |
| Variables.RebuildUndefined | depends_variables.py:126 | when no matched name is defined, substitution leaves the text unchanged |
| Variables.ResizedIsLast | depends_variables.py:124-128 | under the exactness condition, once a replacement changes the length no later matched name is defined |
| Variables.SpliceExact | depends_variables.py:124-128 | splicing at the original offsets equals the intended in-place replacement as long as only the last replacement changes the length |
| Variables.PassAgrees | depends_variables.py:124-136 | one pass as written agrees with the intended pass when only its last replacement changes the length |
| Variables.SubstituteNoDollar | depends_variables.py:115-139 | a string without `$` is returned unchanged by both the as-written and the intended substitution |
| Variables.SubstituteAgrees | depends_variables.py:115-139 | when each pass has at most one length-changing replacement and it is the last, the as-written substitution equals the intended one |
| Variables.SubstituteDrifts | depends_variables.py:124-128 | with `A = ""` and `B = "b"`, `"$A $B"` becomes `" $Bb"` as written but `" b"` as intended |
| Frames.FirstRunFrom | depends_util.py:273-274 | the search finds the first unescaped `#` at or after the position, or reports that there is none |
| Frames.RunEnd | depends_util.py:273 | a run of `#` extends exactly to the first character that is not `#` |
| Frames.HasFrameSymbolsExactly | depends_util.py:254-263 | a string has frame symbols exactly when some `#` is not preceded by a backslash |
| Frames.Pad | depends_util.py:277 | the padded frame number is at least as wide as the run it replaces and holds no `#` |
| Frames.StepShrinks | depends_util.py:276-280 | each replacement removes at least one `#`, so the loop ends |
| Frames.ReplaceRuns | depends_util.py:275-280 | after the loop no unescaped `#` remains |
| Frames.FrameNumber | depends_util.py:277 | the frame number is written as `str(frameNumber)` |
| Frames.ReplaceFrameSymbols | depends_util.py:267-282 | the loop that rescans after every splice yields the frame name |
| Frames.ReplaceRunsPrefix | depends_util.py:275-280 | text free of frame symbols in front of a template passes through the replacement unchanged |
| Frames.ReplaceRunsTemplate | depends_util.py:267-282 | on a template of literals, escapes and runs, each run is replaced by the zero-padded frame number |
| Frames.UnescapeTemplate | depends_util.py:281 | after the replacement, each escaped `\#` becomes a literal `#` and nothing else changes |
| Frames.FrameNameTemplate | depends_util.py:267-282 | the frame name of any template is literals kept, escapes unescaped and runs replaced by the padded number |
| Frames.TemplateExample | depends_util.py:211-218 | a template whose expected rendering is known gives that frame name |
| Frames.ExampleSingle | depends_util.py:215 | `foo.#.txt` at frame 1 gives `foo.1.txt` |
| Frames.ExamplePadded | depends_util.py:216 | `foo.##.txt` at frame 1 gives `foo.01.txt` |
| Frames.ExampleWide | depends_util.py:217 | `foo.#.txt` at frame 100 gives `foo.100.txt` |
| Frames.ExampleEscaped | depends_util.py:218 | `foo\#.#.txt` at frame 5 gives `foo#.5.txt` |
| Frames.EscapedClean | depends_util.py:259 | an escaped `#` alone is not a frame symbol |
| Frames.FrameList | depends_util.py:241-250 | a missing end gives the bare filename; otherwise one name per frame from start to end inclusive, in order |
| Frames.FrameSpec.constructor | depends_util.py:222-227 | a new framespec holds the filename and no range |
| Frames.FrameSpec.SetFramerange | depends_util.py:233-238 | each end becomes `int(v) if v else None`; a `ValueError` on the start leaves both ends alone, one on the end leaves the start already set |
| Frames.FrameSpec.Frames | depends_util.py:241-250 | the loop returns the frame list of the framespec's filename and range |
| Frames.NewFrameSpec | depends_util.py:222-230 | a framespec is built with the filename and, when a range is given, succeeds exactly when both ends parse |
| Frames.SpecFrames | depends_util.py:226-229 | without a range a framespec lists only its filename |
| Frames.FrameZeroIsNoRange | depends_util.py:237 | a start frame of 0 is falsy and counts as no range, so only the filename is listed |
| Util.PathSplit | depends_util.py:142 | `os.path.split`: the base name holds no `/`, and the head keeps no trailing `/` unless it is all slashes |
| Util.PathSplitJoin | depends_util.py:142-183 | joining the head with a new base name and splitting again gives back the head and that base name |
| Util.LeftmostAllHash | depends_util.py:151-154 | the loop settles on the leftmost segment made only of `#`, or on none |
| Util.VersionSlot | depends_util.py:145-154 | the version segment is left of the leftmost all-`#` segment, or the second-to-last or only segment; it is missing exactly when the first segment is all `#` |
| Util.TrailingDigits | depends_util.py:168 | the count of trailing digits is exact |
| Util.NumberMatch | depends_util.py:168-170 | the matched number is a non-empty run of digits |
| Util.PoundCount | depends_util.py:157-160 | the count of `#` removed is positive exactly when the segment holds a `#` |
| Util.NextVersion | depends_util.py:136-183 | fails (Python's `IndexError`) exactly when the first segment of the base name is all `#` |
| Util.NextFilenameVersion | depends_util.py:136-183 | the method computes the next version of the filename |
| Util.BumpSegment | depends_util.py:156-180 | the method computes the version segment's replacement |
| Util.BumpNumber | depends_util.py:165-176 | the method computes the segment with its number increased |
| Util.IncrementedValue | depends_util.py:175-176 | the new number is all digits, no narrower than the old one, and worth one more |
| Util.BumpedIncrements | depends_util.py:165-176 | a segment ending in digits keeps its text before them and its number goes up by one |
| Util.NumberMatchNone | depends_util.py:166-176 | a segment without trailing digits gets `001` appended |
| Util.NextSegmentChars | depends_util.py:156-180 | the new segment adds no characters other than digits, `_` and `#` |
| Util.NextSegmentMarks | depends_util.py:157-180 | `#` marks and trailing underscores are stripped before the number is bumped, then put back with at least one underscore |
| Util.NextVersionShape | depends_util.py:142-183 | the new name keeps the directory and every segment except the version segment, which is replaced by its bump |
| Util.NextVersionTwo | depends_util.py:147-148 | with two segments the first one holds the version |
| Util.NextVersionThree | depends_util.py:150-154 | a middle segment of `#` is skipped and the version goes into the segment before it |
| Util.SegmentNumberExample | depends_util.py:136-183 | `foobar_v001` becomes `foobar_v002` |
| Util.SegmentMarksExample | depends_util.py:156-180 | `shot_v009_####` becomes `shot_v010_####` |
| Util.SegmentFreshExample | depends_util.py:166-176 | `foo` becomes `foo001` |
| Util.NameIndices | depends_util.py:193-196 | fails exactly when some existing name's tail after the prefix is not an integer literal; otherwise one index per name, in order |
| Util.SortInts | depends_util.py:197 | the indices are sorted and a permutation of the input |
| Util.UniqueNameAsWritten | depends_util.py:186-204 | fails exactly when some existing name's tail is not an integer |
| Util.GenerateUniqueName | depends_util.py:186-204 | the method, with the source's loops, computes the as-written name |
| Util.ParseIndices | depends_util.py:193-196 | the first loop yields the integer after the prefix of every existing name in order, or fails as `int()` does |
| Util.PickIndex | depends_util.py:198-204 | the scan over the sorted indices picks `1` when the smallest index is not `1`, and otherwise one past the end of the first consecutive run |
| Util.FirstFree | depends_util.py:198-204 | the smallest integer from the start on that is not used |
| Util.UniqueName | depends_util.py:186-204 | fails exactly when some existing name's tail is not an integer |
| Util.UniqueNameFresh | depends_util.py:186-204 | the name picked is not an existing name, and every smaller positive index is already used |
| Util.UniqueNameAgrees | depends_util.py:197-204 | when the indices are positive and distinct, the as-written name equals the corrected one |
| Util.UniqueNameDuplicate | depends_util.py:197-204 | for `group01`, `group1`, `group02` the as-written name is the existing `group02`; the corrected one is `group03` |
| Util.NameIndicesErrMessage | depends_util.py:196 | a failure is always the `int()` error |
| Packets.SubclassPairs | data_packets/vcldatapackets.py:16-88 | the subclass relation holds a pair exactly when the second type's declared parent is the first |
| Packets.SubtypesOfIsClosure | depends_util.py:27-40 | the listed subtypes of a packet type are exactly the closure of the subclass relation |
| Packets.AllClassChildren | depends_util.py:27-40 | the worklist applied to packet types returns exactly the type's subtypes |
| Packets.Slots | data_packets/vcldatapackets.py:21-35 | a subtype's file descriptors include its parent's |
| Packets.FreshFilenames | depends_data_packet.py:29-34 | `filenameDictForDataPacketType`: exactly the type's file descriptors, each set to the empty string |
| Packets.SlotTables | data_packets/vcldatapackets.py:16-88 | the descriptor table of each of the seven packet types |
| Packets.SubtypeSlots | data_packets/vcldatapackets.py:28-35 | every subtype carries at least its supertype's descriptors |
| Packets.UuidText | depends_data_packet.py:42 | `str(uuid)` is 36 characters without `:` or `$` |
| Packets.ParseUuid | depends_data_packet.py:62 | `uuid.UUID(s)` succeeds exactly when the text, with braces stripped from its ends and hyphens dropped, is 32 hex digits, and then gives them lower-cased |
| Packets.UuidRoundTrip | depends_data_packet.py:42-62 | parsing the text of a UUID gives the UUID back |
| Packets.Field | depends_data_packet.py:61 | a field of a `:`-split string holds no `:` |
| Packets.UuidFromLocation | depends_data_packet.py:53-62 | no UUID unless the string starts with `::`; otherwise the third field is parsed, and a malformed one raises |
| Packets.LocationFields | depends_data_packet.py:37-42 | a location string splits into two empty fields, the UUID text and the output name's pieces |
| Packets.LocationRoundTrip | depends_data_packet.py:37-76 | the UUID read from a location string is the packet's source node, and a `:`-free output name is the fourth field |
| Packets.FreshPacket | depends_data_packet.py:92-96 | a new packet has exactly its type's descriptors and no range |
| Packets.WithFilename | depends_data_packet.py:108-114 | refused exactly for a descriptor the packet does not have |
| Packets.WithFilenameFrame | depends_data_packet.py:108-114 | only that descriptor's filename changes; the type, source and range are kept |
| Packets.RangeOf | depends_data_packet.py:117-127 | no range gives `None`; a given range succeeds exactly when both ends parse, holding `int(v) if v else None` for each |
| Packets.SlotFramesAgree | depends_data_packet.py:152 | a descriptor's frame list is the framespec built from its filename and the packet's range |
| Packets.DataPresentSpec | depends_data_packet.py:140-154 | fails exactly when a non-empty specific descriptor is missing (Python's `KeyError`) |
| Packets.DataPresentAll | depends_data_packet.py:146-167 | without a specific descriptor, data is missing exactly when some descriptor lists no file or one of its files does not exist |
| Packets.DataPresentNoRange | depends_data_packet.py:147-167 | for one named descriptor without a range, data is present exactly when its file exists |
| Packets.DataPacket.constructor | depends_data_packet.py:92-96 | the new object holds a fresh packet of its type |
| Packets.DataPacket.SetFilename | depends_data_packet.py:108-114 | an unknown descriptor is refused and nothing changes; otherwise the packet becomes the updated value |
| Packets.DataPacket.SetSequenceRange | depends_data_packet.py:117-127 | the range is cleared first, then set when both ends parse; a parse error leaves it cleared |
| Packets.DataPacket.FileDescriptorNamed | depends_data_packet.py:130-137 | an unknown descriptor is refused; otherwise a new framespec of that filename and the packet's range |
| Packets.DataPacket.DataPresent | depends_data_packet.py:140-154 | the loop over descriptors computes the data-present answer |
| Packets.DataPacket.SlotPresent | depends_data_packet.py:152 | one descriptor's files all exist |
| Packets.FilesExistIn | depends_data_packet.py:157-167 | no frames counts as missing; otherwise every frame's file exists |
| Nodes.ReadNodeDecls | depends_node.py:668-692 | a read node for a packet type has no inputs, no attributes and one output named after the type |
| Nodes.PossibleTypes | depends_node.py:74-82 | an input or output accepts exactly its own type and that type's subtypes |
| Nodes.TypesAccepted | depends_node.py:513-521 | the accepted types are exactly those some input of the node accepts |
| Nodes.PossibleSlots | depends_node.py:115-120 | an output offers exactly the descriptors of every type it may hold |
| Nodes.FreshFiles | depends_node.py:115-123 | a new output holds every possible descriptor, each empty |
| Nodes.NewOutputFiles | depends_node.py:117-123 | the loops over possible types and descriptors build the empty descriptor table |
| Nodes.AddEmptySlots | depends_node.py:121-122 | adding descriptors sets each added one to the empty string and keeps the others |
| Nodes.OutputSlotTables | depends_node.py:115-123 | an image output offers `filename` and `transform`; a text-file output offers `filename` |
| Nodes.TextFileAcceptsItself | depends_node.py:74-82 | a text file accepts only itself; an image also accepts a lightprobe |
| Nodes.KeysDisjoint | depends_node.py:266-279 | `INPUT@` and `OUTPUT@` keys never collide, and both hold `@` |
| Nodes.KindAtKey | depends_node.py:218-223 | in a well-formed node the key says what a property is: an input, an output, or an attribute under its plain name |
| Nodes.FreshProps | depends_node.py:210-223 | the properties of a new node are well-formed and unset |
| Nodes.FreshOutputsFresh | depends_node.py:103-123 | the outputs of a new node have only empty descriptors and no range |
| Nodes.AttributeNamesPlain | depends_node.py:222-223 | no attribute name declared by a node kind holds `@` |
| Nodes.CleanNodeName | depends_node.py:39-44 | each character is kept when it is a letter, digit, newline or dot and replaced by `_` otherwise; the length is kept |
| Nodes.CleanNodeNameIdempotent | depends_node.py:39-44 | cleaning a clean name changes nothing |
| Nodes.CleanNodeNameFixed | depends_node.py:39-44 | a name is clean exactly when all its characters are allowed or `_` |
| Nodes.CleanNodeNameConcat | depends_node.py:504 | cleaning distributes over concatenation |
| Nodes.SetName | depends_node.py:490-496 | the name becomes the cleaned name and nothing else changes |
| Nodes.InputNamed | depends_node.py:311-318 | succeeds exactly when the `INPUT@` key is present, with that input; otherwise raises "Input … does not exist in node …." |
| Nodes.OutputNamed | depends_node.py:372-379 | succeeds exactly when the `OUTPUT@` key is present, with that output; otherwise raises "Output … does not exist in node …." |
| Nodes.AttributeNamed | depends_node.py:443-449 | succeeds exactly for a plain key that is present, with that attribute; otherwise raises "Attribute … does not exist in node …." |
| Nodes.ReadRange | depends_node.py:338-340 | a range is substituted only when requested and both ends are truthy; otherwise it is returned as stored |
| Nodes.InputValue | depends_node.py:321-329 | succeeds exactly when the input exists, giving its stored value, substituted when requested; otherwise the lookup's error |
| Nodes.InputRange | depends_node.py:332-340 | succeeds exactly when the input exists; gives the stored range unless substitution is requested and both ends are truthy, and then both ends substituted; otherwise the lookup's error |
| Nodes.OutputValue | depends_node.py:382-390 | succeeds exactly when the output exists and holds the descriptor, giving the stored file name, substituted when requested; a missing output raises the lookup's error and a missing descriptor Python's `KeyError` |
| Nodes.OutputRange | depends_node.py:393-401 | succeeds exactly when the output exists; gives the stored range unless substitution is requested and both ends are truthy, and then both ends substituted; otherwise the lookup's error |
| Nodes.AttributeValue | depends_node.py:452-460 | succeeds exactly when the attribute exists, giving its stored value, substituted when requested; otherwise the lookup's error |
| Nodes.AttributeRange | depends_node.py:463-471 | with substitution, succeeds exactly when the attribute has a range with both ends set (the source indexes the range unconditionally, so otherwise `TypeError`), giving both ends substituted; without, the stored range |
| Nodes.SetInputValue | depends_node.py:296-300 | succeeds exactly when the input exists and rewrites only that property |
| Nodes.SetInputRange | depends_node.py:303-308 | succeeds exactly when the input exists and rewrites only that property |
| Nodes.SetOutputValue | depends_node.py:357-361 | succeeds exactly when the output exists and rewrites only that property |
| Nodes.SetOutputRange | depends_node.py:364-369 | succeeds exactly when the output exists and rewrites only that property |
| Nodes.SetAttributeValue | depends_node.py:428-432 | succeeds exactly when the attribute exists and rewrites only that property |
| Nodes.SetAttributeRange | depends_node.py:435-440 | succeeds exactly when the attribute exists and rewrites only that property |
| Nodes.InputValueRoundTrip | depends_node.py:296-329 | after setting an input's value, reading it back without substitution gives that value; every other property and the node's identity are unchanged |
| Nodes.InputRangeRoundTrip | depends_node.py:303-340 | after setting an input's range, reading it back without substitution gives that range; its value and every other property are unchanged |
| Nodes.OutputValueRoundTrip | depends_node.py:357-390 | after setting an output descriptor, reading it back gives that value; other descriptors and properties are unchanged |
| Nodes.OutputRangeRoundTrip | depends_node.py:364-401 | after setting an output's range, reading it back gives that range; other properties are unchanged |
| Nodes.AttributeRoundTrip | depends_node.py:428-471 | after setting an attribute's value and range, both read back as set; other properties are unchanged |
| Nodes.ReadWithoutDollar | depends_node.py:326-329 | a stored text without `$` reads the same with or without substitution |
| Nodes.FreshNodeDeclared | depends_node.py:210-223 | a new node is well-formed and every declared input and output can be looked up |
| Nodes.GetSeqRange | depends_node.py:145-155 | a range is returned exactly when it is set and both ends are non-empty, and then unchanged |
| Nodes.FirstOfType | depends_node.py:566-581 | the first declaration (input or output) of exactly the given type, or none when no declaration has it |
| Nodes.ImageKindsPair | depends_node.py:560-581 | for image transform and colorspace apply, the image input and the image output affect each other |
| Nodes.PairingIsExact | depends_node.py:560-581 | structure-from-motion has no input of its output's type; lightprobe reduce pairs its input with its output |
| Nodes.RequirementsByKind | depends_node.py:524-529 | nodes without inputs are always fulfilled; awk needs `File`; lightfield rasterize needs `Lightprobe` and `BoundingBox` |
| Nodes.KeptByDuplicate | depends_node.py:505-509 | a duplicate keeps exactly the attributes and outputs |
| Nodes.DuplicateShape | depends_node.py:499-510 | the duplicate has the same kind, the new UUID, the cleaned extended name, copies of all attributes and outputs, and fresh inputs |
| Nodes.DuplicateName | depends_node.py:504 | for a clean name, the duplicate's name is the name followed by the cleaned extension |
| Nodes.OutputNames | depends_node.py:346-354 | every listed output name can be looked up |
| Nodes.OutputFill | depends_node.py:552-555 | the values used to fill a packet are keyed by the output's descriptors |
| Nodes.PacketFor | depends_node.py:551-555 | a packet is built exactly when every descriptor of the type has a value and the range parses; it then holds those values |
| Nodes.HandleOutputMeaning | depends_node.py:545-556 | handling an output succeeds exactly when every descriptor of the handled type reads with substitution and the range parses, and the packet then holds the substituted values |
| Nodes.Recipes | depends_node.py:545-556 | one recipe per output |
| Nodes.Handled | depends_node.py:532-557 | one result per output |
| Nodes.HandledByOutput | depends_node.py:545-556 | the result at each position is the handling of the output at that position |
| Nodes.HandleAcceptedType | depends_node.py:546-556 | an output that offers every possible descriptor, has a parsable range and is specialised to an accepted type is handled successfully |
| Nodes.HandleUnwrittenOutput | depends_node.py:546-556 | an unwritten output yields a packet of its declared type with empty filenames and no range |
| Nodes.HandleFreshNode | depends_node.py:532-557 | each output of a new node is handled successfully, without a range |
| Nodes.FillPacket | depends_node.py:552-555 | filling a new packet object succeeds exactly when the value-level packet is built, and then holds it |
| Nodes.FillSlot | depends_node.py:553-555 | one descriptor is set and the range is set again; nothing else changes |
| Nodes.SceneGraphHandle | depends_node.py:532-557 | succeeds exactly when every output is handled, returning new packet objects that hold the handled packets in output order |
| Nodes.MakePackets | depends_node.py:544-557 | the loop creates one new packet object per recipe, holding the expected packet |
| Nodes.OutputFramespec | depends_node.py:404-411 | fails when the substituted value does; otherwise a framespec of the substituted value and range |
| Nodes.DagNode.constructor | depends_node.py:210-223 | the new object holds a new, well-formed node |
| Nodes.DagNode.SetNodeName | depends_node.py:490-496 | the node becomes the renamed value |
| Nodes.DagNode.SetInputValueOf | depends_node.py:296-300 | an unknown input is refused and nothing changes; otherwise the node becomes the updated value |
| Nodes.DagNode.SetInputRangeOf | depends_node.py:303-308 | an unknown input is refused and nothing changes; otherwise the node becomes the updated value |
| Nodes.DagNode.SetOutputValueOf | depends_node.py:357-361 | an unknown output is refused and nothing changes; otherwise the node becomes the updated value |
| Nodes.DagNode.SetOutputRangeOf | depends_node.py:364-369 | an unknown output is refused and nothing changes; otherwise the node becomes the updated value |
| Nodes.DagNode.SetAttributeValueOf | depends_node.py:428-432 | an unknown attribute is refused and nothing changes; otherwise the node becomes the updated value |
| Nodes.DagNode.SetAttributeRangeOf | depends_node.py:435-440 | an unknown attribute is refused and nothing changes; otherwise the node becomes the updated value |
| Nodes.DagNode.DuplicateNode | depends_node.py:499-510 | a new object holding the duplicate, which is well-formed |
| Kinds.Args | nodes/vclnodes.py:55-62 | each word becomes one plain argument, in order |
| Kinds.InputSlot | depends_data_packet.py:130-137 | `dataPacketDict[input].fileDescriptorNamed(slot)` succeeds exactly when the packet and descriptor exist; the result has the descriptor's filename, the packet's range ends and the packet's frame list |
| Kinds.OutputSpec | depends_node.py:404-411 | `outputFramespec` fails when the substituted value does or the range does not parse; otherwise it has the substituted filename and lists the framespec's frames |
| Kinds.FrameRangeText | nodes/vclnodes.py:57 | `'%d-%d'` succeeds exactly when both ends are set, giving `start-end` |
| Kinds.Attribute | depends_node.py:452-460 | an attribute read succeeds exactly when the attribute exists |
| Kinds.NodeAccessors | depends_node.py:404-460 | the accessors a command reads through are the node's output framespecs and attribute values |
| Kinds.LightprobeFrameOption | nodes/vclnodes.py:56-57 | a set start frame adds `-t start-end`; a set start with no end raises (Python's `TypeError`) |
| Kinds.LightprobeReduceList | nodes/vclnodes.py:41-63 | succeeds exactly when both input descriptors, both outputs, the frame option and `resultCount` can be read; the list then holds the probe, transform, count and output arguments in the source's order, with the image output also given for `-outputTransforms` |
| Kinds.ColorspaceRangeSingleImage | nodes/vclnodes.py:132-133 | an input without a range lists one frame, so as written `'%d-%d' % (None, None)` raises |
| Kinds.ColorspaceRange | nodes/vclnodes.py:132-133 | the corrected prefix is `range -t start-end` exactly when both ends are set and frames exist, and it agrees with the as-written one wherever that succeeds |
| Kinds.ColorspaceApplyListAsWritten | nodes/vclnodes.py:122-138 | as written, success needs the input descriptor and the range prefix to succeed |
| Kinds.ColorspaceApplySingleImageRaises | nodes/vclnodes.py:122-138 | an input packet without a range makes the as-written command raise |
| Kinds.ColorspaceApplyList | nodes/vclnodes.py:122-138 | succeeds exactly when the input descriptor, the output and `colorCurveFile` can be read; seven arguments, preceded by the range prefix exactly when the input has a frame range |
| Kinds.SplitRuns | nodes/vclnodes.py:274-280 | as many runs as the shorter frame list, the i-th reading the i-th input frame and writing the i-th output frame |
| Kinds.SplitRunsLoop | nodes/vclnodes.py:274-280 | the loop over `zip` builds exactly those runs |
| Kinds.SplitRunsFrames | nodes/vclnodes.py:274-280 | run `i` reads input frame `start + i` and writes output frame `start + i` |
| Kinds.NukeFlat | nodes/vclnodes.py:266-272 | `nuke`, then `-t start-end` exactly when both ends are truthy, then the infile, scale and outfile arguments |
| Kinds.Runs | nodes/vclnodes.py:280 | each run becomes one nested command, in order |
| Kinds.ImageTransformList | nodes/vclnodes.py:250-281 | success needs the input and output specs; unsplit it is the flat `nuke` command with the scale text; split it is one run per frame pair |
| Kinds.LsList | nodes/samplenodes.py:37-49 | `ls`, `-la` exactly when the lower-cased `long` is not `false`, then `>` and the output filename |
| Kinds.LsDefaultIsLong | nodes/samplenodes.py:28-34 | the default `True` counts as long |
| Kinds.AwkList | nodes/samplenodes.py:77-90 | succeeds exactly when the input, output and `command` can be read, giving `awk`, the quoted command, the input filename, `>` and the output filename |
| Kinds.ExecuteList | depends_node.py:611-621 | structure-from-motion and read nodes give no command; lightfield rasterize always fails; every command except the split image transform is a flat argument list |
| Kinds.PostProcess | nodes/vclnodes.py:214-222 | only lightfield rasterize has a post-process command |
| Kinds.Validate | depends_node.py:700-707 | every node kind except read nodes validates; a read node with an output validates exactly when its first handled packet is built and its data is present, and otherwise raises |
| Dag.EmptyGraph | depends_dag.py:37-45 | a new DAG has no nodes, edges, stale flags or groups, so it is well formed and acyclic |
| Dag.NodesNamed | depends_dag.py:48-57 | the lookup by name yields exactly the nodes carrying that name |
| Dag.AddNode | depends_dag.py:97-104 | adding fails exactly when a node already carries the (non-empty) name; otherwise the node joins, its stale flag is recorded and edges and groups are untouched |
| Dag.AddNodeValid | depends_dag.py:97-104 | adding a well-formed node keeps the graph well formed and keeps it acyclic |
| Dag.AddNodeNames | depends_dag.py:97-104 | a second node with the same name can be added only when that name is empty |
| Dag.RemoveNode | depends_dag.py:107-114 | removing fails exactly for an unknown node; otherwise the node, every edge touching it and its stale flag go and groups are untouched |
| Dag.RemoveNodeValid | depends_dag.py:107-114 | removing a node keeps the graph well formed and acyclic |
| Dag.ConnectionsIn | depends_dag.py:81-86 | the nodes feeding a node are exactly the targets of its stored edges |
| Dag.ConnectionsOut | depends_dag.py:89-94 | the nodes a node feeds are exactly the sources of edges into it |
| Dag.Connect | depends_dag.py:117-130 | an unknown node or an existing connection fails with the graph unchanged; otherwise the edge is added and the call succeeds exactly when the result is acyclic (a failing cycle check keeps the edge) |
| Dag.ConnectSelf | depends_dag.py:117-130 | connecting a node to itself fails but leaves the self-edge in the graph |
| Dag.ConnectValid | depends_dag.py:117-130 | connecting keeps the graph well formed, and after success the provider is among the consumer's inputs |
| Dag.Disconnect | depends_dag.py:133-142 | disconnecting succeeds exactly when both nodes exist and the edge exists, and then removes only that edge |
| Dag.DisconnectValid | depends_dag.py:133-142 | disconnecting keeps the graph well formed and acyclic, and the provider no longer feeds the consumer |
| Dag.ConnectDisconnect | depends_dag.py:117-142 | disconnecting right after a successful connect restores the original graph |
| Dag.StaleState | depends_dag.py:152-156 | reading a stale flag fails exactly for a node without one and otherwise returns the stored flag |
| Dag.SetStale | depends_dag.py:145-149 | setting a flag changes that node's flag only |
| Dag.BeforeAfter | depends_dag.py:240-253 | a node is after another exactly when the other is before it |
| Dag.NotBeforeItself | depends_dag.py:240-253 | in an acyclic graph no node is before or after itself |
| Dag.AllNodesBefore | depends_dag.py:240-245 | the search returns exactly the nodes reachable along input edges |
| Dag.AllNodesAfter | depends_dag.py:248-253 | the search returns exactly the nodes reachable against input edges |
| Dag.Located | depends_data_packet.py:53-79 | a location string names a node and output exactly when it has the `::` prefix, a UUID of a node in the graph and a fourth field naming one of that node's outputs; the result is that node and output |
| Dag.LocatedRoundTrip | depends_data_packet.py:37-79 | the location string of an existing output locates that output |
| Dag.Binding | depends_dag.py:292-299 | an input bound to something is bound to an existing node and one of its outputs |
| Dag.BindingRoundTrip | depends_dag.py:292-299 | an input holding an output's location string is bound to exactly that output |
| Dag.OutputType | depends_dag.py:270-289 | an output whose type has no subtypes reports its declared type |
| Dag.OutputTypePossible | depends_dag.py:270-289 | when bindings respect types, the reported type is always one the output may hold |
| Dag.AppendMissing | depends_dag.py:224-228 | the list grows only at its end, by packets not yet present, and ends up holding every newly required one |
| Dag.RequiredSources | depends_dag.py:210-229 | the worklist ends with a duplicate-free list that starts with the node's own needs and holds exactly its (direct or, with recursion, transitive) providers |
| Dag.ProviderOf | depends_dag.py:182-188 | an input's provider is the node its binding names, exists in the graph and is joined to the consumer by an edge |
| Dag.Providers | depends_dag.py:175-202 | the providers listed are known nodes other than the node itself, filtered by the unfulfilled flag, and every provider of the named inputs that passes the filters is listed |
| Dag.NeedsOf | depends_dag.py:175-202 | the needs function gives each node its filtered providers and never leaves the graph |
| Dag.OrderFrom | depends_dag.py:231-237 | the order is the discovered list reversed, followed by the node itself when asked, and holds exactly the node's dependencies |
| Dag.HandleCheck | depends_node.py:532-557 | `sceneGraphHandle` under the reported output types succeeds exactly when every output's packet is built, and otherwise fails with the first failing output's error |
| Dag.SceneWalk | depends_dag.py:165-171 | the walk of `buildSceneGraph` raises exactly when the start or a node reachable from it is rejected |
| Dag.DependenciesFrom | depends_dag.py:205-237 | raises exactly when the walk from the target does; otherwise the order is the discovered list reversed, holding exactly the dependencies (and the target when included) |
| Dag.OrderedDependencies | depends_dag.py:205-237 | raises exactly when `sceneGraphHandle` fails on the node or on a node before it; otherwise the evaluation order holds exactly the given node (when included) and its dependencies, in reversed discovery order |
| Dag.DependenciesBefore | depends_dag.py:205-245 | every dependency is a node before the given one, and in an acyclic graph a node never depends on itself |
| Dag.AllNodesDependingOn | depends_dag.py:256-267 | raises exactly when the scene graph of some node after the given one cannot be built; otherwise the result is exactly the nodes after it whose dependencies include it |
| Dag.DependingOnFrom | depends_dag.py:262-267 | the loop raises exactly when some candidate's walk fails, and otherwise keeps exactly the candidates whose dependency order contains the node |
| Dag.DependingOnExact | depends_dag.py:256-267 | a node depends on another exactly when the other is among its unfiltered dependencies (the after-filter loses nothing) |
| Dag.OutputGoesTo | depends_dag.py:302-315 | raises exactly when finding the depending nodes does; otherwise the result is exactly the pairs of a directly depending node and one of its inputs bound to the given output |
| Dag.OutputGoesToExact | depends_dag.py:302-315 | in an acyclic graph the depending-node filter loses nothing: every input bound to the output is reported |
| Dag.Specialization | depends_dag.py:333-336 | the specialization dictionary has one entry per output, holding that output's reported type |
| Dag.OutputDataPacket | depends_dag.py:326-338 | the packet is the first output's handle under the specialization, and a node without outputs fails with an index error |
| Dag.OutputDataPacketOk | depends_dag.py:326-338 | with typed bindings, full descriptors and a valid range the output packet exists |
| Dag.InputDataPacket | depends_dag.py:318-323 | an unbound input has no packet; a bound one has its provider's output packet, failing exactly when that fails |
| Dag.AddGroup | depends_dag.py:379-388 | adding a group fails exactly when the same set or the same name is already present, and otherwise only the group dictionary changes |
| Dag.AddGroupDistinct | depends_dag.py:384-388 | adding a group keeps every group's node set distinct |
| Dag.RemoveGroupNamed | depends_dag.py:396-399 | removing by name fails exactly for an unknown name and otherwise drops only that entry |
| Dag.AddRemoveGroup | depends_dag.py:379-399 | removing a freshly added group by name restores the graph |
| Dag.GroupCount | depends_dag.py:422-430 | the count is zero exactly when no group holds the node, exceeds one exactly when two different groups hold it, and is at most the number of groups |
| Dag.GroupName | depends_dag.py:410-419 | a set is named exactly when some group holds that set, the name is such a group, and with distinct groups it is the only one |
| Dag.GroupOf | depends_dag.py:433-440 | a node has a group name exactly when its group count is not zero, and that group holds it |
| Dag.GroupIndices | depends_dag.py:443-461 | the start is the first member of the group in the list (none when there is none), and the end is the last index of that first run when a non-member follows it, else none |
| Dag.VersionSplit | depends_dag.py:371 | the name splits into a prefix ending in a non-digit and a non-empty run of trailing digits, and fails exactly when there are no trailing digits or the prefix does not match |
| Dag.VersionSplitOf | depends_dag.py:371 | a matching prefix followed by digits splits back into the same two parts |
| Dag.SafeNodeName | depends_dag.py:360-373 | a free name is kept; otherwise the result is free and counts up from the name with `1` appended, and the only failure is the regular-expression mismatch of the source |
| Dag.NextNameAhead | depends_dag.py:365-372 | each round of the loop moves to a name with fewer taken names ahead of it, so the loop ends |
| Dag.Dag.constructor | depends_dag.py:37-45 | a new DAG object holds the empty graph |
| Dag.Dag.Add | depends_dag.py:97-104 | the object changes as AddNode says and is unchanged on failure |
| Dag.Dag.Remove | depends_dag.py:107-114 | the object changes as RemoveNode says and is unchanged on failure |
| Dag.Dag.ConnectNodes | depends_dag.py:117-130 | the outcome and the new graph are those of Connect |
| Dag.Dag.DisconnectNodes | depends_dag.py:133-142 | the object changes as Disconnect says and is unchanged on failure |
| Dag.Dag.SetNodeStale | depends_dag.py:145-149 | the object changes as SetStale says |
| Dag.Dag.AddNodeGroup | depends_dag.py:379-388 | the object changes as AddGroup says and is unchanged on failure |
| Dag.Dag.RemoveNodeGroup | depends_dag.py:391-407 | by name as RemoveGroupNamed; by a non-empty set, fails exactly when no group holds that set and otherwise drops one entry holding it (with distinct groups, exactly the entries holding it); with neither, nothing changes |
| Snapshots.ReadTypeNamed | depends_node.py:668-692 | a read-node class name found leads to the packet type whose read class carries that name |
| Snapshots.KindNamed | depends_util.py:43-50 | a class name found leads to a kind of that class name |
| Snapshots.KindNamedClassName | depends_util.py:43-50 | every node class is found again by its own name |
| Snapshots.ReadNameNotBundled | depends_node.py:668-692 | no generated read-node class name collides with a bundled node class |
| Snapshots.ReadTypeNamedOf | depends_node.py:668-692 | a read-node class name leads back to its packet type |
| Snapshots.ValueRecordOf | depends_dag.py:477-479 | an input's or attribute's record keeps its name and range |
| Snapshots.FilesRecordOf | depends_dag.py:478 | an output's record keeps its name and range |
| Snapshots.NodeRecordOf | depends_dag.py:471-479 | a node's record holds its name, class name, UUID text, `True` exactly for a stale node, and one record per declared input, output and attribute, in declaration order |
| Snapshots.RestoreInputs | depends_dag.py:511-513 | restoring input records fails exactly when one names an input the node lacks; otherwise it only rewrites values and leaves every other key alone |
| Snapshots.RestoreOutput | depends_dag.py:514-518 | restoring an output record fails exactly when it carries sub-outputs for an output the node lacks; otherwise only that output changes |
| Snapshots.RestoreOutputStep | depends_dag.py:515-518 | one pass of the sub-output loop is one value write followed, when a range is stored, by one range write |
| Snapshots.RestoreOutputs | depends_dag.py:514-518 | restoring output records fails exactly when a record with sub-outputs names an unknown output; otherwise other keys stay |
| Snapshots.RestoreAttributes | depends_dag.py:519-521 | restoring attribute records fails exactly when one names an unknown attribute; otherwise other keys stay |
| Snapshots.RestoreNode | depends_dag.py:505-521 | an unknown class name or a malformed UUID fails; a restored node is well formed, of the named class, with the stored name and UUID and the declared keys, and is stale exactly when the text is `True` |
| Snapshots.RestoreInputsOf | depends_dag.py:511-513 | replaying the records taken from a dictionary restores those inputs to the stored properties |
| Snapshots.RestoreOutputsOf | depends_dag.py:514-518 | replaying the records taken from a dictionary restores those outputs to the stored properties |
| Snapshots.RestoreAttributesOf | depends_dag.py:519-521 | replaying the records taken from a dictionary restores those attributes to the stored properties |
| Snapshots.RestorePropsOf | depends_dag.py:511-521 | the three loops together turn a fresh dictionary into the stored one |
| Snapshots.RestoreNodeRecord | depends_dag.py:471-521 | loading the record of a conforming node gives back the node and its stale flag |
| Snapshots.RestoreNodeOf | depends_dag.py:505-521 | a record of a known class, a valid UUID and properties that fit loads as exactly the node with those properties |
| Snapshots.NodeRecords | depends_dag.py:471-479 | one record per node in the listing order, with its name and UUID text |
| Snapshots.EdgeRecords | depends_dag.py:481-484 | each edge record has the provider's UUID as `FROM` and the consumer's as `TO` |
| Snapshots.GroupRecords | depends_dag.py:486-489 | each group record has the group's name and its members' UUID texts |
| Snapshots.Snapshot | depends_dag.py:467-497 | a snapshot lists every node, edge and group once, and each node entry carries the node's name and a UUID text parsing back to it |
| Snapshots.RestoreNodes | depends_dag.py:508-522 | loading node records keeps the graph well formed and acyclic, never drops a node and leaves edges and groups alone |
| Snapshots.RestoreEdges | depends_dag.py:525-528 | loading edge records keeps the graph well formed, only adds edges, and on success keeps it acyclic |
| Snapshots.MembersOf | depends_dag.py:531-532 | a group's member list loads exactly when every text is a UUID, and holds the listed nodes present in the graph |
| Snapshots.RestoreGroups | depends_dag.py:531-532 | loading group records touches only the group dictionary and never drops a name |
| Snapshots.Restore | depends_dag.py:500-532 | restoring from any snapshot leaves a well-formed graph, acyclic when restoring succeeds |
| Snapshots.AddNodeNamesDistinct | depends_dag.py:97-104 | adding a node keeps non-empty node names distinct |
| Snapshots.RestoreNodesOf | depends_dag.py:508-522 | loading the records of a graph's nodes in listing order rebuilds its nodes and stale flags |
| Snapshots.RestoreEdgesOf | depends_dag.py:525-528 | loading the records of an acyclic graph's edges rebuilds its edges, every connection succeeding |
| Snapshots.RestoreGroupsOf | depends_dag.py:531-532 | loading group records rebuilds the dictionary they were taken from |
| Snapshots.SnapshotRoundTrip | depends_dag.py:467-532 | restoring the snapshot of a well-formed acyclic graph with distinct names, conforming nodes and groups of known nodes succeeds and gives back the same graph |
| Snapshots.RestoreSnapshot | depends_dag.py:500-532 | the object ends as Restore says, succeeding exactly when Restore does |
| Snapshots.LoadNodes | depends_dag.py:508-522 | the node loop ends in the state RestoreNodes gives |
| Snapshots.LoadEdges | depends_dag.py:525-528 | the edge loop ends in the state RestoreEdges gives |
| Snapshots.LoadGroups | depends_dag.py:531-532 | the group loop ends in the state RestoreGroups gives |
| Snapshots.Missing | depends_util.py:110-112 | the result lists exactly the entries of one list absent from the other |
| Snapshots.Changed | depends_util.py:108-114 | entries found on one side only are reported, and only when the lists differ |
| Snapshots.SnapshotDiff | depends_util.py:103-125 | a node name (an edge pair) is reported exactly when the node (edge) lists differ and the entry is on one side only |
| Snapshots.SnapshotDiffReordered | depends_util.py:103-125 | snapshots listing the same entries in another order show no difference |
| Snapshots.SnapshotDiffSymmetric | depends_util.py:103-125 | swapping the two snapshots reports the same names and pairs |
| Propagation.EvolvesReady | depends/depends_main_window.py:670-733 | propagation keeps a graph well formed, ranked and with every binding on an edge |
| Propagation.BindingKept | depends/depends_main_window.py:670-733 | under propagation an input's binding can only be lost, never moved to another output |
| Propagation.LostBindingCleared | depends/depends_main_window.py:717-720 | a binding that propagation lost left its input cleared |
| Propagation.StepTrans | depends/depends_main_window.py:695-697 | the nodes changed and reported by two nested cascades add up to one cascade within the outer reach |
| Propagation.NotAfterItself | depends/depends_main_window.py:702-733 | in a ranked graph no node is after itself, so the cascade below a node never comes back to it |
| Propagation.ClearInput | depends/depends_main_window.py:718-719 | clearing an input empties its value and range and touches no other property |
| Propagation.SetRange | depends/depends_main_window.py:726-729 | setting a bound input's range changes only that range |
| Propagation.RangedOutput | depends/depends_main_window.py:678-691 | the output paired with an input, when written, is an output of the node other than the input |
| Propagation.TakeRange | depends/depends_main_window.py:684-691 | the input's range, and the paired output's range when it has sub-outputs, become the packet's range as text; nothing else of the node changes |
| Propagation.IncomingRange | depends/depends_main_window.py:681-683 | an incoming range is read only for an input whose stored value names a source |
| Propagation.TakeIncomingRange | depends/depends_main_window.py:681-691 | a failure to build the packet leaves the graph unchanged and is passed on; no range leaves it unchanged; a range is taken as TakeRange says and the node is reported |
| Propagation.StoreRange | depends/depends_main_window.py:682-691 | only the given node changes, exactly as TakeRange says, and it is reported |
| Propagation.InputChanged | depends/depends_main_window.py:670-699 | only the node and nodes after it change, every change is reported, bindings are only lost and the graph stays ready |
| Propagation.OutputChanged | depends/depends_main_window.py:702-733 | only nodes after the node change and are reported; when the first dependents query raises, nothing changes; when nothing raised the node is reported and every direct dependent's inputs hold their sources' ranges |
| Propagation.RecheckDependents | depends/depends_main_window.py:712-720 | the first loop, over the dependents the query found, changes only nodes after the node and reports every change; a raise in a nested cascade stops it |
| Propagation.CheckInputs | depends/depends_main_window.py:712-720 | checking a dependent changes only it and what is after it; when nothing raised every input was bound and every one whose source reports a type it does not accept is cleared |
| Propagation.CheckInput | depends/depends_main_window.py:713-720 | one input: an unbound input raises the attribute error; otherwise its change is propagated and it is cleared when its source's type is not one it accepts |
| Propagation.ChangeThenClear | depends/depends_main_window.py:715-720 | the input's change is propagated, then the input is cleared when asked, all within the dependent and what is after it |
| Propagation.ResyncDependents | depends/depends_main_window.py:722-733 | the second dependents query raises with nothing changed exactly as Dag.AllNodesDependingOn does; otherwise the loop keeps changes after the node, reports the node, and when nothing raised leaves every direct dependent in step with its sources |
| Propagation.ResyncAll | depends/depends_main_window.py:723-729 | only input ranges of the direct dependents move; when nothing raised every dependent was visited and is in step with its sources |
| Propagation.ResyncInputs | depends/depends_main_window.py:724-729 | only input ranges of the dependent move; it raises the attribute error exactly when one of its inputs is unbound, and otherwise every input holds its source's range |
| Propagation.ResyncNode | depends/depends_main_window.py:724-729 | the loop moves only input ranges, succeeds exactly when every input is bound, and then every input is in step |
| Propagation.SyncOne | depends/depends_main_window.py:725-729 | one turn succeeds exactly when the input is bound, and then puts it in step |
| Propagation.OutputTypeStable | depends/depends_main_window.py:714 | the type an output reports depends only on its node and the nodes before it, so a cascade after a node does not change what its sources report |
| Propagation.DependingOnSame | depends/depends_main_window.py:710-723 | moving ranges does not change a node's direct dependents, so both loops see the same nodes |
| Propagation.BindingSame | depends/depends_main_window.py:725 | moving ranges moves no binding |
| Disconnection.NodeDisconnected | depends/depends_main_window.py:648-667 | only nodes after the node change; the node is reported first, then every node that changed; when nothing raised, no input of a node after it draws from it or from a node before it |
| Disconnection.DisconnectNode | depends/depends_main_window.py:658-665 | one turn of the outer loop keeps the nodes handled detached and adds the next one when it did not raise |
| Disconnection.DisconnectInputs | depends/depends_main_window.py:659-665 | only the node and nodes after it change; when nothing raised none of its inputs draws from the given upstream nodes |
| Disconnection.DisconnectInput | depends/depends_main_window.py:660-665 | an input drawing from the upstream nodes is cleared and its change propagated, leaving it detached; an input already detached is left alone with nothing reported |
| Disconnection.ClearThenChange | depends/depends_main_window.py:662-665 | the input is cleared, the node reported first and the change propagated, after which the input is bound to nothing |
| Disconnection.DetachedKept | depends/depends_main_window.py:665 | propagation never binds an input anew, so a detached input stays detached |
| Disconnection.ClearedUnbound | depends/depends_main_window.py:662-663 | a cleared input is bound to nothing |
| Disconnection.DetachedMore | depends/depends_main_window.py:658-665 | nodes already handled stay detached while the next one is handled |
| Disconnection.NodesExit | depends/depends_main_window.py:654-667 | leaving the outer loop, the node comes first in the report and all nodes after it are detached when nothing raised |
| Stale.Marks | depends/depends_main_window.py:781-785 | a node raises exactly when it has outputs and its first output's packet cannot be built; it is reported (once per output) exactly when that packet's data is present |
| Stale.Verdicts | depends/depends_main_window.py:780-785 | every node in the set gets its Marks verdict |
| Stale.Marked | depends/depends_main_window.py:782-784 | the marked nodes are exactly those whose verdict reports them |
| Stale.SetAll | depends_dag.py:145-149 | every node of the set is flagged stale and every other flag is kept |
| Stale.MarkNode | depends/depends_main_window.py:781-785 | for one node: a failing packet raises and changes nothing; otherwise the node is flagged stale and reported once per output when its data is present, and nothing changes when not |
| Stale.SetChildrenStale | depends/depends_main_window.py:774-786 | only stale flags change; when finding the depending nodes raises, nothing changes; otherwise the call raises exactly when some depending node has a packet that cannot be built, and when it does not, exactly the depending nodes with data present are flagged stale and each is reported once per output; any flag that changed was set on a marked node |
| Stale.VerdictsBuilt | depends/depends_main_window.py:780-783 | once every scene graph after the node can be built, no depending node's packet raises |
| Stale.SetChildrenStaleRaises | depends/depends_main_window.py:774-786 | the call raises exactly when the scene graph of some node after the changed one cannot be built |
| Stale.MarkExit | depends/depends_main_window.py:780-786 | leaving the loop, success means no verdict failed, and then the flags and the report are those of all marked nodes |
| Stale.MarkTurn | depends/depends_main_window.py:781-785 | one turn of the loop adds the node's flag and its reports to those of the nodes handled |
| Usage.ScanText | depends/depends_main_window.py:744-751 | scanning a value and its range raises exactly when the range has a missing end, and otherwise finds exactly the names after one and after two dollars in the value and in both ends |
| Usage.ScanProperty | depends/depends_main_window.py:743-770 | one property's scan raises exactly when a read range has a missing end, and otherwise finds exactly the names it mentions |
| Usage.Distinct | depends/depends_main_window.py:771 | each name appears once and no name is gained or lost |
| Usage.VariablesUsed | depends/depends_main_window.py:736-771 | the scan raises exactly when some property it reads has a range with a missing end; otherwise both lists hold exactly the names the node mentions after one and after two dollars, each once |
| Usage.NoDollarUnused | depends/depends_main_window.py:736-771 | a property holding no `$` mentions no variable |
| Sanity.FirstFailure | depends/depends_main_window.py:886-889 | the loop passes exactly when every element passes, and a failure is some element's own error |
| Sanity.NoDollarDefined | depends/depends_main_window.py:798-809 | a node holding no `$` passes the variable checks whatever is defined |
| Sanity.CheckVariables | depends/depends_main_window.py:797-809 | the variable stage passes exactly when every name each node uses after one (two) dollars is defined and no scan raises |
| Sanity.CheckNames | depends/depends_main_window.py:800-802 | one node's names pass exactly when each is defined |
| Sanity.IntPair | depends/depends_main_window.py:829-843 | a stored range converts exactly when both ends are present and parse as integers, giving those integers |
| Sanity.Incoming | depends/depends_main_window.py:821-830 | there is one incoming-packet entry per input, namely the packet InputDataPacket gives |
| Sanity.TypeCheck | depends/depends_main_window.py:820-823 | an input passes exactly when a packet arrives and its type is one the input accepts |
| Sanity.BoundsCheck | depends/depends_main_window.py:826-835 | an input with a range passes exactly when the range converts, a packet with a range arrives and the input's range lies within it |
| Sanity.ParallelCheck | depends/depends_main_window.py:839-848 | an input of a parallel node with a range passes exactly when the range converts and equals the converted range of the output it affects |
| Sanity.OutputCheck | depends/depends_main_window.py:854-874 | an output passes exactly when every non-empty file's directory exists and is writable and, when some file names frames, the output has a range |
| Sanity.Supplied | depends_dag.py:175-202 | the inputs paired with packets are exactly those bound to another node with no later input bound to the same node |
| Sanity.SuppliedAll | depends_node.py:524-529 | every input is among them exactly when every input is bound to another node and no two inputs share that node |
| Sanity.ConnectedExactly | depends_dag.py:352-357 | `nodeAllInputsConnected` holds exactly when each input is bound to another node and no two inputs are bound to the same node |
| Sanity.CheckNode | depends/depends_main_window.py:814-880 | a node passes exactly when it is sane: inputs connected (as the graph's bindings say), types, ranges, the parallel rule, outputs and its kind's validation |
| Sanity.GroupMembers | depends/depends_main_window.py:886-887 | the pairs are exactly the group names with their members present in the graph |
| Sanity.CheckGroupsParallel | depends/depends_main_window.py:885-889 | the stage passes exactly when every group member is embarrassingly parallel |
| Sanity.GroupOutputs | depends/depends_main_window.py:895-896 | the pairs are exactly the outputs of the group's members |
| Sanity.OutputPair | depends/depends_main_window.py:898-900 | an output's range converts exactly when it is set and both ends parse, giving those integers |
| Sanity.Disagree | depends/depends_main_window.py:897-901 | an output without a convertible range, or two outputs with different ranges, break a group's agreement |
| Sanity.AgreeOn | depends/depends_main_window.py:894-901 | the output loop, for any reading of the outputs, passes exactly when every output reads as one and the same range |
| Sanity.CheckGroupRanges | depends/depends_main_window.py:894-901 | one group passes exactly when all its outputs read as one integer range |
| Sanity.CheckAllGroupRanges | depends/depends_main_window.py:891-901 | the stage passes exactly when every group's outputs agree on one range |
| Sanity.CheckSingleGroup | depends/depends_main_window.py:903-906 | the stage passes exactly when no node checked is in more than one group |
| Sanity.SanityCheck | depends/depends_main_window.py:789-906 | the whole check passes exactly when the nodes and the groups are sane |
| Sanity.CheckNodes | depends/depends_main_window.py:814-880 | the node loop passes exactly when every node passes its own checks |
| Sanity.NodesSaneBreaks | depends/depends_main_window.py:814-880 | one failing node fails every longer run of nodes holding it |
| Sanity.NodesSaneAt | depends/depends_main_window.py:814-880 | every node of a passing run passes its own checks |
| Plan.NodeCommands | depends/depends_main_window.py:934-936 | a lightfield-rasterize node's command list always raises |
| Plan.Outcomes | depends/depends_main_window.py:925-936 | one `executeList` outcome per node of the order, each that node's |
| Plan.EntriesFail | depends/depends_main_window.py:924-942 | the execution list fails exactly when some node's `executeList` raised |
| Plan.OneEntryPerNode | depends/depends_main_window.py:930-942 | when the list is built, each node contributes exactly one entry, its own name with its command list, in order |
| Plan.BuildEntries | depends/depends_main_window.py:924-942 | the first loop builds exactly the entries of every node in order, or the first error |
| Plan.Shortest | depends/depends_main_window.py:952 | the shortest batch's length bounds every batch and is reached by one of them (zero with no batches) |
| Plan.RoundsLength | depends/depends_main_window.py:952-955 | `n` rounds hold `n` times the number of batches |
| Plan.InterleavedIndex | depends/depends_main_window.py:952-955 | the interleaving has length shortest times batch count, with item `k` of batch `j` at `k * m + j` |
| Plan.Interleave | depends/depends_main_window.py:952-955 | the loop builds exactly the flattened round-robin interleaving |
| Plan.Iterated | depends/depends_main_window.py:951-952 | only a missing command list cannot be iterated; a command list is read item by item |
| Plan.Batches | depends/depends_main_window.py:951-952 | reading the slice fails exactly when one entry's command list is missing, and otherwise gives each entry's items in order |
| Plan.SplicedShape | depends/depends_main_window.py:951-961 | a splice keeps the list before and after the slice and puts in its place shortest-times-count entries, all named after the group |
| Plan.SpliceGroup | depends/depends_main_window.py:951-961 | the reads, the deletion from the end down and the insertion give exactly the spliced list, or the error |
| Plan.IndicesAgree | depends_dag.py:443-461 | whatever meets the contract of the group-index loop is exactly the first member and the end of its run |
| Plan.Span | depends/depends_main_window.py:945-950 | the intended span is absent exactly when no member is in the order, and otherwise is the whole first run of members |
| Plan.SpanAtEndOfOrder | depends/depends_main_window.py:945-950 | when a group's members close the order, the span as written stops at the first member while the intended span covers them all |
| Plan.InterleaveGroups | depends/depends_main_window.py:944-961 | the second loop applies every group's splice in the given dictionary order, as ApplyGroups says |
| Plan.ExecuteOrder | depends/depends_main_window.py:917-961 | for a given order, unsane nodes give no plan and sane ones give exactly their entries with the groups interleaved |
| Plan.ExecuteNode | depends/depends_main_window.py:909-961 | raises when the scene graph at the node cannot be built; otherwise the order used lists the node last after exactly the dependencies whose data is not on disk, and the result is that order's plan, or an error when it is not sane |
| Plan.Grouped | depends/depends_main_window.py:1161-1170 | grouping succeeds only when no selected node is already in a group |
| Plan.GroupSelected | depends/depends_main_window.py:1161-1170 | the guard loop and the group addition change the graph as Grouped says, and leave it unchanged on failure |
| Plan.GroupedKeepsGroups | depends/depends_main_window.py:1161-1170 | with no node in two groups, grouping fails exactly when a selected node is grouped, no name can be made, or an empty group exists for an empty selection; on success only the new group is added, under a fresh name, and no node is in two groups |
| Plan.GroupCountAfterAdd | depends_dag.py:422-430 | adding a group under a new name keeps every node in at most one group when the members were ungrouped |

## Left out

- Graphical user interface, undo/redo commands, dialogs, the property and variable widgets, and the communication socket: they do not compute anything the planner depends on.
- `ungroupSelectedNodes` and the other menu actions of the main window except the guard of `groupSelectedNodes`: they are interface code around the graph operations that are modelled.
- Floating-point values: the scale factor of the resize node is rendered by an uninterpreted function `scaleText`.
- File-system and process access: whether a file or path exists, whether a directory is writable and the process environment (`os.environ`) are parameters (`fileExists`, `World`, an environment map).
- Dag.OrderedDependencies and Plan.ExecuteNode: `fulfilled` stands for `dataPresent()` of the packet a provider hands on in `orderedNodeDependenciesAt`, which the source computes from the file system; it is a parameter, taken per node (every modelled kind has exactly one output, so a node hands on one packet).
- The temporary files the lightfield rasterize node writes: only the error the source raises when rasterizing is not possible is modelled.
- `uuid4`: fresh UUIDs are parameters; a UUID is modelled by its text.
- The internals of the `networkx` graph library: the graph is modelled by a node map and an edge set with the same queries.
- Python 2 dictionary and set iteration orders are not specified by the language: where the source iterates over a dictionary or set, the order is a parameter (`groupOrder`, `nodeOrder`, `edgeOrder`) or an arbitrary choice.
- The depth-first post-order of `buildSceneGraph` / `nodeOrderedDataPackets` is abstracted: a node's providers are taken in the order of its inputs, and the dictionaries of packets handed to the command generators are the `packets` parameter of the operations that need them.
- Python's `int()` also accepts surrounding whitespace and underscores between digits; the model parses an optional sign followed by decimal digits only.
- Snapshot metadata fields for connections, nodes and variable substitutions are not restored: they are written by the source but never read back by the planner.
- Snapshots.MembersOf: drops group member UUIDs that name no node; the source would put `None` into the member set.
- Snapshots.RestoreSnapshot: when a node name is refused, the error message is not compared with the one adding the node reports, only the outcome.
- Sanity: the group stages of the sanity check skip members that are no longer in the graph; the source would still look at the stale node objects it holds.
- Propagation.ResyncInputs: works on a local copy of the node value, so aliasing between that copy and the graph's node object is not modelled.
- Plan.InterleaveGroups, Plan.ExecuteOrder and Plan.ExecuteNode require that no node is in two groups (`DistinctGroups`); the source never creates such groups, and with overlapping groups its index bookkeeping is not meaningful.
- Plan.InterleaveGroups: with several groups the spans are located in the dependency order, as the source does, so entries removed for an earlier group shift later spans exactly as they would there.
- Propagation.InputChanged and Propagation.OutputChanged: the contracts bound which nodes change, how they may change and which nodes are reported as affected; they do not state the exact final ranges after the whole cascade.
- Propagation.InputChanged: passes on a raise of the nested OutputChanged, whose dependents query raises as Dag.AllNodesDependingOn does, but its own contract does not name the graphs on which that happens: the query runs on the graph after the incoming range is taken.
- Disconnection.NodeDisconnected: passes on the raises of the nested propagation in the same way, and its contract speaks only of the case where nothing raised.
- Plan.NodeCommands: states only the error a rasterize node raises; the commands of each kind are stated by the members of `Kinds`.
- Sanity.CheckNode: when handling the node itself or a node upstream of it fails (`sceneGraphHandle` raises), the source's connection stage raises that error; the model's connection stage looks only at the bindings, and a failing direct provider shows up later, at the type stage.
- Packets.ParseUuid: Python 2's `uuid.UUID` also deletes `urn:` and `uuid:` anywhere in the text and reads the 32 characters with `long(hex, 16)`, which accepts surrounding whitespace, a sign and a `0x` prefix; the model accepts only 32 hex digits, so it refuses some hand-written texts the source reads (every text the model writes is read back, by Packets.UuidRoundTrip).
- Nodes.ReadStored: substitutes with the corrected pass Variables.Substitute, not the source's Variables.SubstituteAsWritten; the two give different text only when one pass makes two or more replacements that change the length (Variables.SubstituteAgrees, Variables.SubstituteDrifts). Every read listed on the following lines inherits this.
- Nodes.ReadRange: substitutes both ends with the corrected pass, as Nodes.ReadStored does.
- Nodes.InputValue: the substituted value is the corrected pass's.
- Nodes.InputRange: the substituted ends are the corrected pass's.
- Nodes.OutputValue: the substituted value is the corrected pass's.
- Nodes.OutputRange: the substituted ends are the corrected pass's.
- Nodes.AttributeValue: the substituted value is the corrected pass's.
- Nodes.AttributeRange: the substituted ends are the corrected pass's.
- Nodes.InputValueRoundTrip: its substituted read-back is stated with the corrected pass.
- Nodes.AttributeRoundTrip: its substituted read-back is stated with the corrected pass.
- Nodes.HandleOutputMeaning: the packet holds the corrected pass's substituted values.
- Nodes.OutputFramespec: built on the corrected pass's substituted value and range.
- Kinds.OutputSpec: the substituted filename is the corrected pass's.
- Kinds.NodeAccessors: the accessors read through the corrected pass, and so do all the commands built on them.
- Dag.Binding: reads the input value through the corrected pass before locating the output.
- Kinds.ExecuteList: a colorspace-apply node uses the corrected list Kinds.ColorspaceApplyList, which omits the range command when the input has no range; the source raises `TypeError` there (Kinds.ColorspaceApplySingleImageRaises). Plan.NodeCommands, Plan.Outcomes, Plan.EntriesFail, Plan.BuildEntries, Plan.ExecuteOrder and Plan.ExecuteNode inherit this.
- Plan.InterleaveGroups: a group whose run of members reaches the end of the order is interleaved over that whole run (the corrected Plan.Span); the source collapses the missing end index to the start index and interleaves only the first member's entry (Plan.SpanAtEndOfOrder).
- Plan.ExecuteOrder: plans with the corrected span, colorspace list and substitution described on the lines above.
- Plan.ExecuteNode: plans with the corrected span, colorspace list and substitution described on the lines above.
- Plan.Grouped: names the new group with the corrected Util.UniqueName; the source uses Util.UniqueNameAsWritten, which can return an existing name (Util.UniqueNameDuplicate), and adding a group under an existing name then raises "NodeGroup named … already exists" where the model succeeds.
- Plan.GroupSelected: inherits the corrected group name of Plan.Grouped.
- Plan.GroupedKeepsGroups: its failure condition describes the corrected group name, so it omits the source's raise on a duplicate generated name.
- Dag.SceneWalk: visits the nodes of a scene graph in no fixed order, not in depth-first post-order; whether the walk raises is the same, but when several nodes fail, the error reported may be another node's.
- Sanity: the error texts of the bounds check, the parallel-range check and the two directory checks are shorter than the source's: they omit the providing node and output, the group name and the directory in parentheses.

## Findings

| source | as written | input that shows it | evidently intended | confidence | as-written member | corrected member |
|---|---|---|---|---|---|---|
| depends_variables.py:124-136 | each replacement is spliced at offsets found on the string before any replacement, so a replacement that changes the length shifts every later one | variables `A = ""`, `B = "b"`, text `"$A $B"` gives `" $Bb"` | every `$NAME` replaced in place, giving `" b"` | not executed | Variables.SubstituteDrifts | Variables.Substitute |
| depends_util.py:193-204 | the next index is found by walking the sorted indices, so two names with the same index (`01` and `1`) make it return a name that already exists | prefix `group`, names `group01`, `group1`, `group02` gives `group02` | a name not among the existing ones: `group03` | not executed | Util.UniqueNameDuplicate | Util.UniqueNameFresh |
| nodes/vclnodes.py:130-133 | a range command is added whenever the input lists frames, and a single image lists one frame, so `'%d-%d' % (None, None)` raises | an input packet with no range | a range command only when both ends of the range are set | not executed | Kinds.ColorspaceApplySingleImageRaises | Kinds.ColorspaceRange |
| depends/depends_main_window.py:945-950 | when the group's last member is also the last entry of the order, the end index is missing and is replaced by the start index, so only the first member's entry is interleaved | group `{a, b}`, order `[a, b]` gives the span `(0, 0)` | the span `(0, 1)` covering all of the group's entries | not executed | Plan.SpanAtEndOfOrder | Plan.Span |
