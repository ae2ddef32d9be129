# Ribasim core, modelled in Dafny

Ribasim is a water resources modelling system: a simulation engine shipped as a
shared library, a native launcher that finds a model file and calls the
engine, a Python package that builds, validates and exports models, a
QGIS plugin that edits them, and a handful of maintenance scripts. This
project models the sequential, deterministic logic around the engine and
proves what it promises:

- the native launcher (`build/cli`) and the library-path wrapper
  (`compile/cli_wrapper`): state machines over an environment map, an
  output log and an exit code (modules `Launcher`, `CliWrapper`);
- the link table: the guarded in-place insert of `LinkTable.add` driven by
  the connectivity and neighbour-limit tables (`Links`, `Validation`);
- the Delwaq water-quality export: the binary record encoders, `strfdelta`,
  the substance-name check, and the network simplification and relabelling
  of both the current and the older exporter (`DelwaqUtil`, `Bytes`,
  `DiGraph`, `DelwaqGraph`, `DelwaqBypass`, `DelwaqCycles`,
  `DelwaqNumbering`, `DelwaqBoundaries`, `DelwaqGenerate`, `DelwaqCoupled`);
- geometry and topology: building line vertices from from/to ids and
  recovering the ids from line endpoints, in every copy of that pair
  (`Topology`, `NodeGeometry`, `QgisTopology`);
- string and path rules: layer names, snake_case, style names, SQLite
  identifier escaping, the `meta_` prefix, nested TOML lookup, release
  tags, CLI version parsing and PATH filtering (`LayerNames`,
  `QgisTables`, `QgisModel`, `Toml`, `DbUtils`, `ColumnPrefix`,
  `ReleaseTag`, `PythonCli`, `Strings`, `Paths`);
- table transforms: schema migrations, time-table filtering and the input
  table write/read/sort rules (`Migrations`, `FilterModel`, `InputBase`,
  `Sorting`);
- the truth-state expansion `expand_logic` (`ExpandLogic`);
- the progress-line loop of the QGIS background task (`Task`).

Python exceptions become the `Err` side of `Common.Result`, one constructor
per exception class; Rust panics become a `Panic` outcome. Where the source
changes state in place (the link table, the graph surgery, the migrations,
the fields of the QGIS task object, the launcher's environment), the model is a class or an
imperative method whose `ensures` ties the new state to a specification
function, and the properties are proved about that function.

Everything the programs ask of the outside world is an input: the foreign
`execute` call and the file dialog of the launcher, `is_file`, the child
process and its output lines, `shutil.which`, the operating system, the
installed files of the CLI cache and the contents of the TOML, GeoPackage
and Arrow files (as maps and sequences).

## Model

| member | source | states |
|---|---|---|
| Launcher.ResolvePath | build/cli/src/main.rs:30-54 | the given argument wins; without any argument the picked file is used and marked as picked, a cancelled pick gives Cancelled; arguments without a path give Missing |
| Launcher.SharedLibPath | build/cli/src/main.rs:64-69 | `libribasim.dll` beside the executable on Windows, `../lib/libribasim.so` or `../lib/libribasim.dylib` on Linux and macOS, nothing (the `unimplemented!` panic) on any other OS |
| Launcher.Process.Launch | build/cli/src/main.rs:23-97 | the imperative `main` (early returns, the `used_file_picker` flag, the environment write) ends in exactly the trace the reference run describes |
| Launcher.CancelledPickerFailsQuietly | build/cli/src/main.rs:30-47 | no arguments and a cancelled picker: FAILURE, no message, environment untouched, no library loaded, nothing executed |
| Launcher.MissingPathFails | build/cli/src/main.rs:50-53 | arguments without a TOML path: the one message "Missing TOML file path" and FAILURE, nothing else |
| Launcher.FileNotFoundFails | build/cli/src/main.rs:56-59 | a path that is not a file: one "File not found" message and FAILURE before any environment change or library load |
| Launcher.ThreadsAlwaysSet | build/cli/src/main.rs:61-62 | after the file check `JULIA_NUM_THREADS` holds the `--threads` value whatever it held before, and no other variable changes |
| Launcher.EnvChangesOnlyAfterFileCheck | build/cli/src/main.rs:56-62 | the environment changes only when the model path was resolved and is an existing file |
| Launcher.ExecutedRunExitsWithLowByte | build/cli/src/main.rs:64-96 | `execute` is called only when every earlier step succeeded, the library is the per-OS path, and the exit status is `execute`'s result truncated to `u8` |
| Launcher.LoadFailureFails | build/cli/src/main.rs:72-78 | a failed library load exits with FAILURE and never calls `execute` |
| Launcher.ExitCodeWraps | build/cli/src/main.rs:96 | the `as u8` cast wraps: 260 exits with 4, -1 with 255 |
| Launcher.PromptIffPicker | build/cli/src/main.rs:32-93 | once `execute` returned, the Enter prompt is written and one line read exactly when the picker supplied the path |
| Launcher.NoPromptWithoutPicker | build/cli/src/main.rs:88-93 | without a completed pick there is no prompt and no read on any path |
| CliWrapper.BinPath | compile/cli_wrapper/src/main.rs:6 | `bin` inside the executable's directory |
| CliWrapper.Process.Launch | compile/cli_wrapper/src/main.rs:4-39 | the imperative `main` (environment write, spawn, exit) ends in exactly the trace the reference run describes |
| CliWrapper.WindowsPrependsPath | compile/cli_wrapper/src/main.rs:9-17 | on Windows `PATH` becomes `bin;` plus its old value (the empty text when unset), and nothing else changes |
| CliWrapper.OthersPrependLibraryPath | compile/cli_wrapper/src/main.rs:18-26 | elsewhere `LD_LIBRARY_PATH` becomes `bin:` plus its old value and `PATH` is left as it was |
| CliWrapper.ChildAndArguments | compile/cli_wrapper/src/main.rs:28-33 | the child is `bin/ribasim.exe` on every OS and gets the arguments without the program name, in order |
| CliWrapper.ExitCodePassThrough | compile/cli_wrapper/src/main.rs:32-38 | the exit code is the child's, or 1 when it has none; a failed spawn panics |
| Links.LinkType | python/ribasim/ribasim/geometry/link.py:132-134 | "control" exactly when the from-node type is a spatial control type, "flow" exactly otherwise |
| Links.InNeighbors | python/ribasim/ribasim/geometry/link.py:166-169 | the count of same-type links into the node; zero exactly when there is none |
| Links.OutNeighbors | python/ribasim/ribasim/geometry/link.py:171-174 | the count of same-type links out of the node; zero exactly when there is none |
| Links.AmountAt | python/ribasim/ribasim/geometry/link.py:176-179 | a table entry when the node type is a key and the position exists, KeyError for an unknown type, IndexError otherwise |
| Links.ValidateLink | python/ribasim/ribasim/geometry/link.py:164-197 | success only when the to-node is below its in-link maximum and the from-node below its out-link maximum for the link type; every failure is a ValueError, KeyError or IndexError |
| Links.MaxLinkId | python/ribasim/ribasim/geometry/link.py:71 | an id of the table that no other id exceeds |
| Links.Seed | python/ribasim/ribasim/geometry/link.py:67-72 | after construction the used ids are the table's ids with its maximum as the maximum; an absent or empty table leaves them empty |
| Links.SeedValid | python/ribasim/ribasim/geometry/link.py:67-72 | a table read with unique ids and pairs satisfies the table invariant |
| Links.AddRejectsUnconnectable | python/ribasim/ribasim/geometry/link.py:110-113 | types that cannot connect: an error and an unchanged table |
| Links.AddRejectsReverse | python/ribasim/ribasim/geometry/link.py:115-125 | an existing opposite link, with no UserDemand end: ValueError and an unchanged table |
| Links.AddWithoutTable | python/ribasim/ribasim/geometry/link.py:164-165 | without a table the assertion fails and nothing changes |
| Links.AddRespectsNeighborLimits | python/ribasim/ribasim/geometry/link.py:164-197 | a successful add had the to-node below its in-maximum and the from-node below its out-maximum for the inferred type |
| Links.AddRejectsUsedId | python/ribasim/ribasim/geometry/link.py:139-142 | a given id that is already used fails and leaves the table unchanged; once the connectivity, table and reverse-link checks pass, the failure is the ValueError naming the id |
| Links.AddDuplicatePairKeepsRow | python/ribasim/ribasim/geometry/link.py:157-162 | a duplicate (from, to) pair raises ValueError after the table was replaced: the row stays, the id is not recorded |
| Links.AddAppendsOneRow | python/ribasim/ribasim/geometry/link.py:137-162 | a successful add appends exactly one row with the given nodes, inferred type and name under a fresh or given unused id, and records the id |
| Links.AddPreservesValid | python/ribasim/ribasim/geometry/link.py:137-162 | a successful add keeps ids and pairs unique, every id recorded and the maximum above all of them |
| Links.LinkTable.Add | python/ribasim/ribasim/geometry/link.py:82-162 | the method, check by check, ends in the state and result the reference `AddSpec` gives |
| Validation.CanConnectIn | python/ribasim/ribasim/validation.py:84-87 | true exactly when the upstream type is a key and the downstream type is in its list |
| Validation.TerminalHasNoDownstream | python/ribasim/ribasim/validation.py:79 | nothing may be downstream of a Terminal |
| Validation.UnknownUpstream | python/ribasim/ribasim/validation.py:84-87 | an upstream type that is no key connects to nothing |
| Validation.DownstreamTypesAreKnown | python/ribasim/ribasim/validation.py:6-80 | every listed downstream type is itself a key of the connectivity table |
| Validation.TablesShareKeys | python/ribasim/ribasim/validation.py:6-124 | the connectivity table and both amount tables have the same 15 keys |
| Validation.AmountsWellFormed | python/ribasim/ribasim/validation.py:90-124 | every amount entry has four numbers with minimum in below maximum in and minimum out below maximum out |
| DelwaqUtil.FormatPaddedDigits | python/ribasim/ribasim/delwaq/util.py:34 | a number below 10^width formats (`:0Nd`) to exactly `width` digits that read back as the number |
| DelwaqUtil.StrfdeltaRoundTrip | python/ribasim/ribasim/delwaq/util.py:29-34 | below 1000 days `strfdelta` gives 9 digits, `ddd` days then `hh`, `mm`, `ss` from `divmod` by 3600 and 60, and reading them back gives the duration |
| DelwaqUtil.StrfdeltaNegative | python/ribasim/ribasim/delwaq/util.py:31-34 | `timedelta` keeps the seconds non-negative and the sign in the days: minus one day prints as `-01000000` |
| DelwaqUtil.WritePointer | python/ribasim/ribasim/delwaq/util.py:37-49 | 16 bytes per link, record k reading back as `from, to, 0, 0` little-endian int32; a value outside int32 raises `struct.error` |
| DelwaqUtil.WriteLengths | python/ribasim/ribasim/delwaq/util.py:52-65 | an int32 zero header followed by the data, one float32 word per value |
| DelwaqUtil.Records | python/ribasim/ribasim/delwaq/util.py:80 | one record per distinct time, each holding the values of the rows at that time in row order |
| DelwaqUtil.GroupMembers | python/ribasim/ribasim/delwaq/util.py:80-82 | a row's value is in the group of its own time |
| DelwaqUtil.RecordsPartitionRows | python/ribasim/ribasim/delwaq/util.py:80-82 | the records come in strictly ascending time, every row lands in the record of its time, and no record is empty |
| DelwaqUtil.EncodeRecords | python/ribasim/ribasim/delwaq/util.py:81-82 | the file is written exactly when every time fits in int32; otherwise `struct.error` |
| DelwaqUtil.WriteTimeGroups | python/ribasim/ribasim/delwaq/util.py:68-109 | the writer loop produces the reference file: the records, then (current writers) a last record at the last time plus the step repeating the last group, NameError without rows; the older writers of coupling/delwaq/delwaq_util.py:52-83 end after the records |
| DelwaqUtil.IsValidSubstance | python/ribasim/ribasim/delwaq/util.py:195-219 | valid exactly when ASCII, at most 20 characters, no `;` and no `"` |
| DelwaqUtil.SubstancesRejected | python/ribasim/tests/test_delwaq.py:109-114 | the names with `;`, a non-ASCII letter, 22 characters or a `"` are rejected |
| DelwaqUtil.SubstanceAccepted | python/ribasim/ribasim/delwaq/util.py:195-219 | a plain short ASCII name is accepted |
| DelwaqUtil.PositiveIds | python/ribasim/ribasim/delwaq/util.py:118 | exactly the node ids above zero are kept |
| DelwaqUtil.KeptLinks | python/ribasim/ribasim/delwaq/util.py:121-124 | exactly the links whose both ends are kept, no more than there were |
| DelwaqUtil.UgridTopology | python/ribasim/ribasim/delwaq/util.py:112-130 | node ids ascending and exactly the positive ones; links are the links between kept nodes; each link end is the position of its node in the sorted list |
| DelwaqGraph.Build | python/ribasim/ribasim/delwaq/generate.py:92-113 | the graph exists exactly when both tables exist; it holds every non-control node of the node table with its type and every flow link of the link table with its id as a one-element list |
| DelwaqGraph.Converging | python/ribasim/ribasim/delwaq/generate.py:125-131 | a junction carries the outflow link's id exactly when it has one inflow and at least one outflow |
| DelwaqGraph.First | python/ribasim/ribasim/delwaq/generate.py:137-139 | the first id of a link's id list, IndexError on an empty list |
| DelwaqGraph.JunctionMergeFacts | python/ribasim/ribasim/delwaq/generate.py:120-143 | a junction with several inflows and several outflows raises the ValueError; a merge onto an existing link raises the duplicate ValueError; otherwise nodes and old links are kept and every inflow neighbour is linked to every outflow neighbour with the carried id |
| DelwaqGraph.MergeDone | python/ribasim/ribasim/delwaq/generate.py:133-143 | after all inflow neighbours, exactly the new inflow-to-outflow links were added, each with its carried id |
| DelwaqGraph.MergeInflow | python/ribasim/ribasim/delwaq/generate.py:134-143 | the inner loop computes the reference merge of one inflow neighbour |
| DelwaqGraph.MergeInflows | python/ribasim/ribasim/delwaq/generate.py:133-143 | the outer loop computes the reference merge of all inflow neighbours |
| DelwaqGraph.MergeJunction | python/ribasim/ribasim/delwaq/generate.py:121-143 | one junction is bypassed as the reference merge describes |
| DelwaqGraph.JunctionsFacts | python/ribasim/ribasim/delwaq/generate.py:119-143 | the junction loop keeps nodes and old links, fails only with the type KeyError or the source's ValueErrors and IndexError, and marks exactly the junctions |
| DelwaqGraph.MergeJunctions | python/ribasim/ribasim/delwaq/generate.py:119-143 | the loop over `G.succ` computes the reference junction pass |
| DelwaqGraph.RemoveNodesFacts | python/ribasim/ribasim/delwaq/generate.py:145-146 | removing listed nodes succeeds exactly when none is listed twice and each is in the graph (otherwise NetworkXError); the other nodes and the links between them stay as they were |
| DelwaqGraph.Dedup | python/ribasim/ribasim/delwaq/generate.py:178-179 | the listed nodes without repetition, as used by the corrected removals |
| DelwaqGraph.DedupDistinct | python/ribasim/ribasim/delwaq/generate.py:178-179 | a list without repetitions is its own deduplication |
| DelwaqGraph.RemoveNodesDedup | python/ribasim/ribasim/delwaq/generate.py:178-179 | whenever removing a list succeeds, removing it deduplicated gives the same graph |
| DelwaqGraph.RemoveAll | python/ribasim/ribasim/delwaq/generate.py:145-146 | the removal loop computes the reference removal |
| DelwaqGraph.JunctionPhaseFacts | python/ribasim/ribasim/delwaq/generate.py:115-146 | after the first phase no junction is left, every other node is kept, and links between non-junctions keep their ids |
| DelwaqBypass.FirstId | python/ribasim/ribasim/delwaq/generate.py:166 | the first id of an existing link with ids |
| DelwaqBypass.NodeBypassFacts | python/ribasim/ribasim/delwaq/generate.py:157-171 | bypassing an unwanted node keeps nodes and links, and appends to each link from an inflow neighbour to an outflow neighbour not yet marked (created when absent) the first id of that outflow link; nothing else changes |
| DelwaqBypass.BypassDone | python/ribasim/ribasim/delwaq/generate.py:160-171 | after all inflow neighbours exactly those links grew, each by the outflow link's first id |
| DelwaqBypass.BypassInflow | python/ribasim/ribasim/delwaq/generate.py:161-171 | the innermost loop computes the reference bypass for one inflow neighbour |
| DelwaqBypass.BypassInflows | python/ribasim/ribasim/delwaq/generate.py:160-171 | the loop over inflow neighbours computes the reference bypass |
| DelwaqBypass.BypassNode | python/ribasim/ribasim/delwaq/generate.py:150-171 | one unwanted node is bypassed as the reference describes |
| DelwaqBypass.BypassedFacts | python/ribasim/ribasim/delwaq/generate.py:148-171 | the node loop fails only with the type KeyError, keeps nodes and links (ids only grow at the end), and marks exactly the nodes of unwanted types |
| DelwaqBypass.BypassUnwanted | python/ribasim/ribasim/delwaq/generate.py:148-171 | the node loop computes the reference pass |
| DelwaqBypass.IsolatesOf | python/ribasim/ribasim/delwaq/generate.py:173-176 | exactly the listed nodes without links, without repetition |
| DelwaqBypass.DisjointDistinct | python/ribasim/ribasim/delwaq/generate.py:176-179 | two repetition-free lists with no common element concatenate to a repetition-free list |
| DelwaqBypass.ConnectorPhaseAsWrittenFacts | python/ribasim/ribasim/delwaq/generate.py:148-179 | as written, the phase fails exactly when an unwanted node ended up without links (it is listed twice and its second removal fails); otherwise only kept typed nodes with links remain and links between kept nodes keep their ids as a prefix |
| DelwaqBypass.RemovalFacts | python/ribasim/ribasim/delwaq/generate.py:173-179 | removing the marked nodes and the isolates fails exactly on a marked isolated node; otherwise kept nodes with links remain and their links keep their ids as a prefix |
| DelwaqBypass.IsolatedConnectorFails | python/ribasim/ribasim/delwaq/generate.py:173-179 | a Pump without links is marked and also isolated: the phase as written fails, the corrected one succeeds |
| DelwaqBypass.RemoveConnectorsAsWritten | python/ribasim/ribasim/delwaq/generate.py:148-179 | the second phase as `_setup_graph` runs it, an unwanted node without links being removed twice, computes the written phase |
| DelwaqBypass.ConnectorPhaseRefines | python/ribasim/ribasim/delwaq/generate.py:173-179 | the written and the corrected phase give the same result whenever the written one succeeds or the corrected one fails |
| DelwaqBypass.ConnectorPhaseFacts | python/ribasim/ribasim/delwaq/generate.py:148-179 | with each node removed once the phase fails only on an untyped node; afterwards only kept typed nodes that had links remain, with links between kept nodes kept |
| DelwaqBypass.RemoveConnectors | python/ribasim/ribasim/delwaq/generate.py:148-179 | the second phase with each listed node removed once computes the corrected phase |
| DelwaqCycles.CyclesFacts | python/ribasim/ribasim/delwaq/generate.py:186-198 | folding the 2-cycles link by link never fails on a typed graph and keeps the fold invariant |
| DelwaqCycles.CyclePhaseFacts | python/ribasim/ribasim/delwaq/generate.py:181-198 | afterwards no 2-cycle touches a UserDemand; each removed link was half of such a cycle, its ids were appended to the reverse link and recorded in `merge_links`; every other link keeps its ids |
| DelwaqCycles.FoldUserDemandCycles | python/ribasim/ribasim/delwaq/generate.py:186-198 | the cycle loop computes the reference fold |
| DelwaqCycles.TerminalsFacts | python/ribasim/ribasim/delwaq/generate.py:200-209 | the loop lists exactly the Terminal ends of the Terminal-UserDemand links |
| DelwaqCycles.TerminalPhaseAsWrittenFacts | python/ribasim/ribasim/delwaq/generate.py:200-212 | as written the removal succeeds exactly when no Terminal is listed twice |
| DelwaqCycles.SharedTerminalFails | python/ribasim/ribasim/delwaq/generate.py:200-212 | a Terminal shared by two UserDemands is removed twice as written and the second removal fails; the corrected phase succeeds |
| DelwaqCycles.RemoveDemandTerminalsAsWritten | python/ribasim/ribasim/delwaq/generate.py:200-212 | the removal as `_setup_graph` runs it, a Terminal once per UserDemand link, computes the written phase |
| DelwaqCycles.TerminalPhaseRefines | python/ribasim/ribasim/delwaq/generate.py:200-212 | whenever the written removal succeeds it gives the corrected phase's graph |
| DelwaqCycles.TerminalPhaseFacts | python/ribasim/ribasim/delwaq/generate.py:200-212 | removing each such Terminal once never fails, removes exactly those Terminals and their links, keeps the rest as it was and leaves no Terminal-UserDemand link |
| DelwaqCycles.CollectTerminals | python/ribasim/ribasim/delwaq/generate.py:201-209 | the loop over the links computes the reference list |
| DelwaqCycles.RemoveDemandTerminals | python/ribasim/ribasim/delwaq/generate.py:211-212 | the removal of each Terminal once computes the corrected phase |
| DelwaqNumbering.NumberedFacts | python/ribasim/ribasim/delwaq/generate.py:214-234 | over any prefix of the node order the relabelling succeeds exactly when every node seen is a Basin or a boundary type, and otherwise fails with the error of a node it does not accept |
| DelwaqNumbering.NumberingFacts | python/ribasim/ribasim/delwaq/generate.py:214-234 | on a whole graph: success iff every node is a Basin or a boundary type; then every node is numbered, one-to-one, Basins onto 1..basin_id and boundary nodes onto boundary_id..-1, both rising or falling in node order, and basin_mapping has one entry per Basin |
| DelwaqNumbering.NumberNodes | python/ribasim/ribasim/delwaq/generate.py:214-234 | the relabelling loop computes the reference numbering |
| DelwaqNumbering.RenameSeq | python/ribasim/ribasim/delwaq/generate.py:236 | renaming a node list maps every position through the mapping |
| DelwaqNumbering.RenameLinks | python/ribasim/ribasim/delwaq/generate.py:236 | renaming a link list renames both ends of every position |
| DelwaqNumbering.RenameLinkInjective | python/ribasim/ribasim/delwaq/generate.py:236 | under a one-to-one node mapping, distinct links stay distinct |
| DelwaqNumbering.RelabelNodes | python/ribasim/ribasim/delwaq/generate.py:236 | `relabel_nodes` renames every node one-to-one, keeps its attributes and keeps the node order |
| DelwaqNumbering.RelabelIds | python/ribasim/ribasim/delwaq/generate.py:236 | every link is renamed along its ends and keeps its id list, and no other link appears |
| DelwaqNumbering.RelabelLinks | python/ribasim/ribasim/delwaq/generate.py:236 | the link order is kept, renamed, and the graph's link invariants still hold |
| DelwaqBoundaries.BoundaryKinds | python/ribasim/ribasim/delwaq/generate.py:238-310 | per Basin the kinds Drainage, Precipitation, SurfaceRunoff, Infiltration, and Evaporation exactly when evaporation is on |
| DelwaqBoundaries.AttachKindFacts | python/ribasim/ribasim/delwaq/generate.py:240-252 | one boundary takes the next lower number, adds a fresh node of that type carrying the Basin's id and one link with id [-1] in the kind's direction, and keeps the old graph |
| DelwaqBoundaries.AttachAllFacts | python/ribasim/ribasim/delwaq/generate.py:240-310 | the boundaries of one Basin take consecutive lower numbers, one per kind in order, and only add to the graph |
| DelwaqBoundaries.BoundariesFacts | python/ribasim/ribasim/delwaq/generate.py:238-310 | the loop over the node snapshot fails exactly at a node without attributes; otherwise it keeps the old graph, gives each Basin one boundary of every kind, hands out exactly kinds x Basins numbers, and every new link carries [-1] and joins a new node to a Basin |
| DelwaqBoundaries.AttachBasin | python/ribasim/ribasim/delwaq/generate.py:240-310 | the written-out additions for one Basin equal the reference attachment of its kinds |
| DelwaqBoundaries.AddBasinBoundaries | python/ribasim/ribasim/delwaq/generate.py:238-310 | the loop over a snapshot of the nodes computes the reference loop |
| DelwaqGenerate.Take | python/ribasim/ribasim/delwaq/generate.py:45-47 | `s[:n]` is a prefix of s of length at most n |
| DelwaqGenerate.BoundaryNameParts | python/ribasim/ribasim/delwaq/generate.py:45-47 | a boundary name splits at its last underscore into the type cut to at most 9 characters and the id's text, which reads back as the id |
| DelwaqGenerate.TimestepAsWritten | python/ribasim/ribasim/delwaq/generate.py:400-403 | as written only 0 and +infinity are refused |
| DelwaqGenerate.NegativeSaveatAccepted | python/ribasim/ribasim/delwaq/generate.py:400-403 | a negative saveat passes the check whose message says it must be positive |
| DelwaqGenerate.Timestep | python/ribasim/ribasim/delwaq/generate.py:400-403 | a positive, finite saveat becomes the timestep; anything else is refused with the check's message |
| DelwaqGenerate.TimestepRefinesAsWritten | python/ribasim/ribasim/delwaq/generate.py:400-403 | the corrected check accepts exactly what the written one accepts, less the negative values |
| DelwaqGenerate.TracerCheck | python/ribasim/ribasim/delwaq/generate.py:640-657 | the check passes exactly when the substance name is valid, the node table exists and holds the node, and its type is Basin, LevelBoundary, FlowBoundary or UserDemand; the result is then that type; an invalid name and an untraceable type raise their ValueErrors |
| DelwaqGenerate.UntraceableTypes | python/ribasim/ribasim/delwaq/generate.py:651-657 | Terminals, Junctions and connector nodes cannot be traced |
| DelwaqGenerate.LinkMappingFacts | python/ribasim/ribasim/delwaq/generate.py:312-316 | a link id is mapped exactly when some link carries it, and to the position of the last link that does |
| DelwaqGenerate.BuildLinkMapping | python/ribasim/ribasim/delwaq/generate.py:312-316 | the nested loop over the links and their ids computes the reference mapping |
| DelwaqGenerate.SimplifyFacts | python/ribasim/ribasim/delwaq/generate.py:119-212 | with every listed node removed once (the corrected composition), simplifying fails only where the junction phase fails; after that phase every node is typed, the corrected later phases cannot fail, and the kept nodes keep their attributes |
| DelwaqGenerate.SimplifyAgrees | python/ribasim/ribasim/delwaq/generate.py:119-212 | wherever the written simplification succeeds it equals the corrected one, so SimplifyFacts' results hold for it |
| DelwaqGenerate.SimplifyFailsAlike | python/ribasim/ribasim/delwaq/generate.py:119-212 | where the corrected simplification fails the written one fails with the same error |
| DelwaqGenerate.SimplifyAsWrittenErrors | python/ribasim/ribasim/delwaq/generate.py:119-212 | the written simplification fails only with a junction phase error or with networkx's error on a node removed twice |
| DelwaqGenerate.LinklessPumpAborts | python/ribasim/ribasim/delwaq/generate.py:148-179 | on a model holding one Pump without links the written simplification raises networkx's error and the corrected one succeeds |
| DelwaqGenerate.JunctionPhaseTyped | python/ribasim/ribasim/delwaq/generate.py:115-146 | the junction phase fails with one of its errors or leaves a valid graph of typed nodes |
| DelwaqGenerate.ConnectorPhaseTyped | python/ribasim/ribasim/delwaq/generate.py:148-179 | on typed nodes the corrected connector phase succeeds with a valid graph of typed nodes |
| DelwaqGenerate.ConnectorWrittenErrors | python/ribasim/ribasim/delwaq/generate.py:148-179 | on typed nodes the written connector phase fails only with networkx's error |
| DelwaqGenerate.CyclePhaseTyped | python/ribasim/ribasim/delwaq/generate.py:181-198 | on typed nodes the 2-cycle fold succeeds with a valid graph of typed nodes |
| DelwaqGenerate.TerminalWrittenErrors | python/ribasim/ribasim/delwaq/generate.py:200-212 | on typed nodes the written Terminal removal fails only with networkx's error |
| DelwaqGenerate.RelabelFacts | python/ribasim/ribasim/delwaq/generate.py:214-236 | the relabelled graph is valid, numbers the Basins 1..basin_id and the boundaries boundary_id..-1, and has no node below boundary_id |
| DelwaqGenerate.FinishFacts | python/ribasim/ribasim/delwaq/generate.py:214-318 | after simplification the numbering fails only on a node that is neither a Basin nor a boundary type, with a ValueError; otherwise the boundaries are attached and `len(basin_mapping) == basin_id` holds |
| DelwaqGenerate.KeptNumberable | python/ribasim/ribasim/delwaq/generate.py:220-234 | a graph holding only the types the simplification keeps is numbered without the "unexpected node" ValueError |
| DelwaqGenerate.ConnectorPhaseKept | python/ribasim/ribasim/delwaq/generate.py:148-179 | the connector phase leaves only Basins, Terminals, LevelBoundaries, FlowBoundaries and UserDemands |
| DelwaqGenerate.CyclePhaseKept | python/ribasim/ribasim/delwaq/generate.py:181-198 | the 2-cycle fold keeps the nodes of kept types |
| DelwaqGenerate.TerminalPhaseKept | python/ribasim/ribasim/delwaq/generate.py:200-212 | the Terminal removal keeps the nodes of kept types |
| DelwaqGenerate.SimplifiedNumberable | python/ribasim/ribasim/delwaq/generate.py:115-234 | after a successful written simplification the numbering succeeds, so the "unexpected node" ValueError is never raised |
| DelwaqGenerate.SetupGraph | python/ribasim/ribasim/delwaq/generate.py:92-320 | a missing table fails the opening assertion; otherwise, on the graph built from the tables, the set-up succeeds exactly when the written simplification does, else raising its error (a junction error or networkx's error on a node removed twice); a set-up holds the ids the 2-cycle phase folded, a valid graph with each Basin's boundaries, a link mapping and a Basin map onto 1..number of Basins, so the closing assertion never fails |
| DelwaqGenerate.SetupBuilt | python/ribasim/ribasim/delwaq/generate.py:115-320 | once the graph is built: the set-up succeeds exactly when the written simplification does, with the folded ids and each Basin's boundaries, and otherwise raises the simplification's error |
| DelwaqGenerate.FinishGraph | python/ribasim/ribasim/delwaq/generate.py:214-320 | on the simplified graph it fails exactly when the numbering does, with the numbering's ValueError; otherwise the Basins are 1..n, each with all its boundary nodes, every carried link id maps to the last exchange carrying it, and the merged link ids pass through |
| DelwaqGenerate.SimplifyGraph | python/ribasim/ribasim/delwaq/generate.py:119-212 | the four phases of `_setup_graph` run in turn compute the written simplification |
| DelwaqCoupled.MakeBoundaryParts | coupling/delwaq/generate.py:280-281 | the name splits at its last underscore into the type cut to 9 characters and the id's text, which reads back as the id |
| DelwaqCoupled.MakeBoundaryIsBoundaryName | coupling/delwaq/generate.py:280-281 | for a type without underscores the script's name equals the exporter's |
| DelwaqCoupled.MakeBoundaryKeepsUnderscore | coupling/delwaq/generate.py:280-281 | for a type with an underscore among its first 9 characters the two names differ |
| DelwaqCoupled.CoupledKinds | coupling/delwaq/generate.py:121-169 | per Basin the kinds Drainage and Precipitation, and Evaporation exactly when evaporation is on |
| DelwaqCoupled.CoupledBoundariesFacts | coupling/delwaq/generate.py:121-169 | when `edge_id` was assigned the loop is the exporter's loop with these kinds; when it was not, it fails with a NameError exactly when some Basin exists |
| DelwaqCoupled.AttachCoupled | coupling/delwaq/generate.py:122-169 | the written-out additions for one Basin equal the reference attachment of its kinds |
| DelwaqCoupled.AddCoupledBoundaries | coupling/delwaq/generate.py:121-169 | the loop over a snapshot of the nodes computes the reference loop |
| DelwaqCoupled.SweepsFacts | coupling/delwaq/generate.py:57-81 | the script's bypass loop is the exporter's with the single-inflow assertion added: it succeeds exactly when the exporter's does and every bypassed node has one inflow neighbour, yields the same graph, and has assigned `edge_id` exactly when some bypass went towards a node |
| DelwaqCoupled.SweepNodes | coupling/delwaq/generate.py:57-81 | the loop over the nodes computes the reference pass |
| DelwaqCoupled.SweepNode | coupling/delwaq/generate.py:58-81 | one node: the inflow assertion, then the bypass, as the reference step |
| DelwaqCoupled.CoupledSimplifyFacts | coupling/delwaq/generate.py:40-98 | simplification succeeds exactly when every node is typed and every bypassed node has one inflow neighbour; it keeps exactly the nodes of the kept types with their attributes |
| DelwaqCoupled.UnexpectedNodeUnreachable | coupling/delwaq/generate.py:104-117 | after simplification every node is a Basin or a boundary type, so the "unexpected node" exception is never raised |
| DelwaqCoupled.SimplifyCoupled | coupling/delwaq/generate.py:57-98 | the bypass loop, the removal and the 2-cycle fold in turn compute the reference simplification |
| DelwaqCoupled.Generate | coupling/delwaq/generate.py:30-188 | missing tables fail; on the graph built from the tables: the simplification's error (a missing type or the single-inflow assertion), else the NameError of the unassigned `edge_id` exactly when no bypass assigned it and a Basin needs it, else the timestep check's ValueError as written; it succeeds exactly when none of these occurs, with the folded ids, each Basin's boundaries, every link id mapped and the timestep the written check lets through |
| DelwaqCoupled.RelabelBasins | coupling/delwaq/generate.py:104-122 | the relabelled node order holds a Basin exactly when the simplified graph does |
| DiGraph.DistinctAt | python/ribasim/ribasim/delwaq/generate.py:118-146 | in a list without repetitions an element does not occur before its own place |
| DiGraph.TypeOf | python/ribasim/ribasim/delwaq/generate.py:120 | reading a node's `type` succeeds exactly on a node that has attributes; a missing node or one created implicitly by `add_edge` is a KeyError |
| DiGraph.AddNode | python/ribasim/ribasim/delwaq/generate.py:98-105 | a new node goes last in the node order, an existing one keeps its place; the attributes are replaced and the links are untouched |
| DiGraph.EnsureNode | python/ribasim/ribasim/delwaq/generate.py:109-113 | an end point missing from the graph is appended without attributes |
| DiGraph.AddEdge | python/ribasim/ribasim/delwaq/generate.py:109-113 | the link gets the id list; a new link goes last, an existing one keeps its place; missing ends are created without attributes, existing nodes are untouched |
| DiGraph.LinkedIsAddEdge | python/ribasim/ribasim/delwaq/generate.py:143 | adding a new link between two existing nodes is `add_edge` |
| DiGraph.ExtendIds | python/ribasim/ribasim/delwaq/generate.py:141-142 | extending a link's id list changes nothing else |
| DiGraph.RemoveEdge | python/ribasim/ribasim/delwaq/generate.py:198 | removing a link succeeds exactly when it exists; the link leaves the map and the order, everything else stays |
| DiGraph.RemoveNode | python/ribasim/ribasim/delwaq/generate.py:145-146 | removing a node succeeds exactly when it exists; the node and exactly the links touching it go, the remaining links keep their ids and order |
| DiGraph.PredIn | python/ribasim/ribasim/delwaq/generate.py:122 | the in-neighbours of a node are exactly the sources of its in-links, without repetition |
| DiGraph.SuccIn | python/ribasim/ribasim/delwaq/generate.py:120 | the out-neighbours of a node are exactly the targets of its out-links, without repetition |
| DiGraph.OutLinks | python/ribasim/ribasim/delwaq/generate.py:120 | the out-links of a node are exactly the links starting there |
| DiGraph.EdgesFrom | python/ribasim/ribasim/delwaq/generate.py:313 | the edge view holds exactly the links whose source is a listed node |
| DiGraph.EdgesViewLinks | python/ribasim/ribasim/delwaq/generate.py:313 | in a valid graph the edge view holds exactly the links |
| Topology.FirstIndexFacts | ribasim_qgis/core/topology.py:31-33 | `index[inverse]` of `np.unique` names the first row with the same coordinate: no earlier row has it, and the position is past the end exactly when no row has it |
| Topology.UniquesAt | ribasim_qgis/core/topology.py:31-33 | row k of the stacked array resolves to the first row with its coordinate |
| Topology.NodeUniquesBelow | ribasim_qgis/core/topology.py:35 | the node part of the first-index array points into the node rows only |
| Topology.EdgeUniques | ribasim_qgis/core/topology.py:35-36 | a vertex passes the `isin` test exactly when it lies on some node, and then resolves to the first node at that point |
| Topology.EdgeResolved | ribasim_qgis/core/topology.py:35 | a vertex resolves to the first node at its point, or past the node rows |
| Topology.EdgeIdsFacts | ribasim_qgis/core/topology.py:36 | the `isin` test on the stacked first-index array decided vertex by vertex |
| Topology.DeriveUnsnapped | python/ribasim/ribasim/geometry/node.py:122-127 | a vertex off every node raises ValueError with the variant's message |
| Topology.DeriveOdd | ribasim_qgis/core/topology.py:42 | with every vertex on a node, an odd vertex count cannot be reshaped into pairs |
| Topology.DerivePairs | plugin/ribasim_qgis/core/topology.py:55-58 | with every vertex on a node and an even count, vertex pair i becomes link i, from the first node at vertex 2i to the first node at vertex 2i+1 |
| Topology.DeriveOk | ribasim_qgis/core/topology.py:18-45 | success means every vertex was on a node and the count was even; then there is one id per vertex pair, each one of the node ids |
| NodeGeometry.Ids | python/ribasim/ribasim/geometry/node.py:110 | the index labels of the node table, row by row |
| NodeGeometry.Points | python/ribasim/ribasim/geometry/node.py:111 | the point of each row of the node table |
| NodeGeometry.Matches | python/ribasim/ribasim/geometry/node.py:82-83 | a label has matching points exactly when some row carries it |
| NodeGeometry.Loc | python/ribasim/ribasim/geometry/node.py:82-83 | `loc` fails with a KeyError exactly when some requested label has no row |
| NodeGeometry.LocUnique | python/ribasim/ribasim/geometry/node.py:82-83 | with unique labels `loc` returns exactly one point per requested id, in order |
| NodeGeometry.EdgeGeometryMissingFrom | ribasim/utils.py:28-30 | a from-id without a row is reported first, as a KeyError |
| NodeGeometry.EdgeGeometryMissingTo | python/ribasim/ribasim/geometry/node.py:82-83 | with every from-id present, a to-id without a row is a KeyError |
| NodeGeometry.EdgeGeometryOk | python/ribasim/ribasim/geometry/node.py:62-89 | with unique labels and as many from-ids as to-ids, all present, line i runs from the point of from_id[i] to the point of to_id[i] |
| NodeGeometry.Indices | python/ribasim/ribasim/geometry/node.py:88 | `np.repeat(np.arange(n), 2)` has 2n entries, entry k being k div 2 |
| NodeGeometry.LinestringsPairs | python/ribasim/ribasim/geometry/node.py:89 | with every index repeated twice, the vertices are cut into consecutive two-vertex lines |
| NodeGeometry.FillVertices | python/ribasim/ribasim/geometry/node.py:84-87 | the from-points at the even slots, the to-points at the odd slots (broadcast when there is one) |
| NodeGeometry.GeometryFromConnectivity | python/ribasim/ribasim/geometry/node.py:62-89 | the method computes the reference construction, including its errors |
| NodeGeometry.FlattenPairs | python/ribasim/ribasim/geometry/node.py:113 | flattening two-vertex lines puts line i's vertices at positions 2i and 2i+1 |
| NodeGeometry.ConnectivityPairs | python/ribasim/ribasim/geometry/node.py:91-131 | two-vertex lines that start and end on nodes give one link per line, from the first node at its first vertex to the first node at its last |
| NodeGeometry.ConnectivityGeometryRoundTrip | python/ribasim/ribasim/geometry/node.py:62-131 | with unique labels and distinct node points, deriving connectivity from the built geometry gives back the from and to ids |
| NodeGeometry.LinesSnapped | python/ribasim/ribasim/geometry/node.py:122 | lines whose vertices are node points leave no vertex unsnapped |
| NodeGeometry.GeometryConnectivityRoundTrip | python/ribasim/ribasim/geometry/node.py:62-131 | with unique labels, two-vertex lines on nodes are rebuilt exactly from the derived ids, even when several nodes share a point |
| NodeGeometry.RebuildLines | python/ribasim/ribasim/geometry/node.py:62-89 | ids naming the first node at each vertex rebuild exactly those lines |
| NodeGeometry.StackedFacts | python/ribasim/ribasim/geometry/node.py:41-52 | appending the present tables fails exactly on a table with columns of different lengths; otherwise its ids are exactly those of the present tables |
| NodeGeometry.FirstRow | python/ribasim/ribasim/geometry/node.py:54 | the first row carrying an id, or past the end |
| NodeGeometry.NodeIdsAndTypes | python/ribasim/ribasim/geometry/node.py:34-60 | the result lists each id of the present tables once, in increasing order, each with the type of its first row; a length mismatch is a ValueError |
| QgisTopology.InferEdgeType | ribasim_qgis/core/topology.py:91-95 | "control" exactly when the from-node type is a spatial control type, "flow" otherwise |
| QgisTopology.LastWithFid | ribasim_qgis/core/topology.py:68 | the dictionary keeps, for a repeated fid, the last node that carries it |
| QgisTopology.NodeIndex | ribasim_qgis/core/topology.py:64-65 | the feature ids, feature by feature |
| QgisTopology.CollectNodeProperties | ribasim_qgis/core/topology.py:48-70 | the loop yields the points and fids row by row and a dictionary holding exactly the fids, each mapped to the type and id of the last feature with that fid |
| QgisTopology.CollectEdgeCoordinates | ribasim_qgis/core/topology.py:73-88 | an empty polyline raises IndexError; otherwise the result is the first and last vertex of each edge, flattened |
| QgisTopology.Endpoints | ribasim_qgis/core/topology.py:79-87 | two points per edge, its first and its last vertex |
| QgisTopology.UniqueLast | ribasim_qgis/core/topology.py:125-126 | with unique fids the look-up finds the node at the vertex itself |
| QgisTopology.EdgePropertiesFacts | ribasim_qgis/core/topology.py:98-137 | an empty polyline or an endpoint off every node stops the update; otherwise, with unique fids, each edge gets the node_id of the first node at its first vertex, the node_id of the first node at its last vertex, and the type inferred from the first |
| QgisTopology.EndpointsOf | ribasim_qgis/core/topology.py:79-87 | the collected coordinates are the endpoint pairs |
| QgisTopology.WrittenProperties | ribasim_qgis/core/topology.py:110-132 | writing through the dictionary that `collect_node_properties` builds gives the edges the reference describes |
| QgisTopology.EdgeLayer.SetEdgeProperties | ribasim_qgis/core/topology.py:98-137 | it succeeds exactly when the reference succeeds; then the layer holds the reference edges and signals end unblocked; a failure while collecting or deriving leaves the features and the signal state as they were |
| QgisTopology.EdgeLayer.WriteAttributes | ribasim_qgis/core/topology.py:123-132 | the loop writes the three attributes of every edge and nothing else |
| QgisTopology.EdgeLayer.ExplodeLines | plugin/ribasim_qgis/core/topology.py:9-31 | all features are replaced by the exploded ones, as many, renumbered 1, 2, ..., each keeping its geometry, node ids and link type, and signals end unblocked |
| QgisTopology.Renumbered | plugin/ribasim_qgis/core/topology.py:25-26 | feature i gets fid i+1 and keeps its geometry and attributes |
| QgisTopology.RenumberedDistinct | plugin/ribasim_qgis/core/topology.py:25-26 | the renumbered fids are distinct and lie in 1..n |
| QgisTopology.Renumber | plugin/ribasim_qgis/core/topology.py:25-26 | the in-place loop over the feature array computes the renumbering |
| LayerNames.NodesKeyedByInputType | plugin/ribasim_qgis/core/nodes.py:301-309 | every class in `NODES` is filed under its own input type, and only BasinState's input type is missing from it |
| LayerNames.LayerName | plugin/ribasim_qgis/core/nodes.py:62-63 | an input's layer name is `ribasim_` followed by its input type |
| LayerNames.ParseName | plugin/ribasim_qgis/core/nodes.py:312-330 | parsing succeeds exactly when the name splits on `_` into 2 or 3 parts; the kind is the second part, the node type present exactly with 3 parts; otherwise ValueError |
| LayerNames.NameOutcome | plugin/ribasim_qgis/core/nodes.py:338-344 | a name without the `ribasim_` prefix is skipped; a registered key is always one of `NODES` |
| LayerNames.LoadNodesFromGeopackage | plugin/ribasim_qgis/core/nodes.py:333-346 | the loop over the layer names computes the reference load |
| LayerNames.LoadedErrSticky | plugin/ribasim_qgis/core/nodes.py:338-344 | once a layer name raises, the whole load raises that error |
| LayerNames.LoadedFacts | plugin/ribasim_qgis/core/nodes.py:333-346 | loading fails exactly when some layer name fails, with the error of the first failing name; on success every entry is the registered class of its key, and a key is present exactly when some layer name produced it |
| LayerNames.SplitThree | plugin/ribasim_qgis/core/nodes.py:319 | a name of three underscore-free parts splits back into them |
| LayerNames.SplitTwo | plugin/ribasim_qgis/core/nodes.py:319 | a name of two underscore-free parts splits back into them |
| LayerNames.PairOutcome | plugin/ribasim_qgis/core/nodes.py:338-344 | a `ribasim_kind_nodetype` name loads under `kind_nodetype` when `NODES` has that key, and raises KeyError otherwise |
| LayerNames.SingleOutcome | plugin/ribasim_qgis/core/nodes.py:341-343 | `ribasim_node` and `ribasim_edge` load under `node` and `edge` |
| LayerNames.InputTypeParts | plugin/ribasim_qgis/core/nodes.py:131-287 | every input type is its kind, then `_` and its node type exactly when the kind is not node or edge, and neither part holds an underscore |
| LayerNames.LayerOutcome | plugin/ribasim_qgis/core/nodes.py:62-63 | loading the layer of any input class registers it under its own input type when `NODES` has that key, and raises KeyError otherwise |
| LayerNames.TypeOutcome | plugin/ribasim_qgis/core/nodes.py:333-346 | a layer `ribasim_<input type>`, the input type being an underscore-free kind optionally followed by `_` and an underscore-free node type (exactly when the kind is not node or edge), loads under that input type when `NODES` has it and raises KeyError otherwise |
| LayerNames.Create | plugin/ribasim_qgis/core/nodes.py:67-73 | creation succeeds exactly when the layer name is not yet in the geopackage, giving that name; otherwise the duplicate-name ValueError |
| QgisTables.StyleNamePlain | ribasim_qgis/core/nodes.py:59-60 | a table name without ` / ` gives the name followed by `Style` |
| QgisTables.StyleNameTable | ribasim_qgis/core/nodes.py:59-60 | `NodeType / table` gives `NodeType_tableStyle` |
| QgisTables.LoadNodesFromGeopackage | ribasim_qgis/core/nodes.py:115-122 | exactly the geopackage layers whose names are known tables are loaded, each as a table of that name |
| QgisTables.LStripChar | ribasim_qgis/core/nodes.py:153 | `lstrip` leaves a suffix of the string that does not start with the stripped character |
| QgisTables.SnakeCharsConcat | ribasim_qgis/core/nodes.py:151-152 | the per-character conversion distributes over concatenation |
| QgisTables.SnakeCharsLower | ribasim_qgis/core/nodes.py:151-152 | a string without upper-case letters is unchanged |
| QgisTables.SnakeCapitalized | ribasim_qgis/core/nodes.py:151-152 | a capitalised word becomes an underscore and the word |
| QgisTables.SnakeCharsPascal | ribasim_qgis/core/nodes.py:151-152 | a PascalCase name becomes its words, each preceded by an underscore |
| QgisTables.SnakeCaseOfPascal | ribasim_qgis/core/nodes.py:150-153 | the snake_case conversion undoes PascalCase: a node type written from words maps to those words joined by `_` |
| QgisTables.AddNodeTypeFiles | ribasim_qgis/core/nodes.py:158-168 | the inner loop adds every `.nc` entry of the node type's section whose table is known, adds nothing else, and keeps what was there |
| QgisTables.AddFiles | ribasim_qgis/core/nodes.py:149-168 | after the loop over the node types every added entry comes from a listed TOML entry, and every listed entry's table is present |
| QgisTables.GetExternalInputFiles | ribasim_qgis/core/nodes.py:125-170 | every returned entry is the file of a listed `.nc` TOML entry of a known node type, and every such entry's table is returned |
| QgisModel.GetOrEmpty | ribasim_qgis/core/model.py:97-98 | `c.get(k, {})` gives the entry when the table has the key and `{}` when it does not; a non-table value has no `get` |
| QgisModel.RecursiveGetAppend | ribasim_qgis/core/model.py:97-98 | looking up `a + b` is looking up `a`, then `b` from there |
| QgisModel.RecursiveGetEmpty | ribasim_qgis/core/model.py:97-98 | once a key is missing the lookup stays `{}`, whatever keys follow |
| QgisModel.MissingKeyGivesEmpty | ribasim_qgis/core/model.py:97-98 | a lookup that misses any key along the way gives `{}` |
| QgisModel.RecursiveGetTwo | ribasim_qgis/core/model.py:97-98 | two keys naming a string in nested tables find that string |
| QgisModel.DirectoryPath | ribasim_qgis/core/model.py:11-33 | a missing directory key raises KeyError; a property lookup that found `{}` gives None |
| QgisModel.JoinDot | ribasim_qgis/core/model.py:27 | joining `.` changes nothing |
| QgisModel.DatabasePathFacts | ribasim_qgis/core/model.py:36-51 | the database is `database.gpkg` in the input directory, relative to the model file's directory unless absolute; it is never None, and a missing or non-string `input_dir` raises |
| QgisModel.ArrowTableNodeFacts | ribasim_qgis/core/model.py:85-86 | a node type without `/` names no table; otherwise the lower-cased type splits at the first ` / ` into a table without separator and the rest, and a `/` without the full separator fails |
| QgisModel.CreateArrowLayer | ribasim_qgis/core/model.py:70-94 | a layer is only returned for a node type holding `/`, named after that node type, on a file that exists |
| QgisModel.ArrowLayerPath | ribasim_qgis/core/model.py:85-92 | the layer of `Table / node` is the file listed as `[table] node = "file"`, below the input directory |
| QgisModel.ArrowLayersFacts | ribasim_qgis/core/model.py:54-67 | every returned layer is the layer of some node type, and every node type with a layer contributes it |
| ColumnPrefix.PrefixColumn | python/ribasim/ribasim/utils.py:4-15 | the column gets the prefix exactly when there are record columns, it is not one of them, it is not `fid` and does not already start with the prefix; otherwise it is returned unchanged |
| ColumnPrefix.PrefixColumnIdempotent | python/ribasim/ribasim/utils.py:4-15 | prefixing twice is prefixing once |
| DbUtils.CollapseDoubled | python/ribasim/ribasim/db_utils.py:6-9 | collapsing doubled quotes undoes the doubling |
| DbUtils.EscIdRoundTrip | python/ribasim/ribasim/db_utils.py:6-9 | an escaped identifier is enclosed in quotes and reads back as the identifier, so distinct identifiers never escape alike |
| DbUtils.SchemaVersion | python/ribasim/ribasim/db_utils.py:38-52 | version 0 without the `ribasim_metadata` table; with the table but no `schema_version` row, a TypeError |
| DbUtils.SetThenGet | python/ribasim/ribasim/db_utils.py:38-65 | after the version row is written the getter reads that version back |
| DbUtils.Database.GetSchemaVersion | python/ribasim/ribasim/db_utils.py:38-52 | the getter computes the reference version |
| DbUtils.Database.SetSchemaVersion | python/ribasim/ribasim/db_utils.py:55-65 | when a `metadata` table exists nothing changes; otherwise `ribasim_metadata` is created, its `schema_version` row is inserted or replaced, it is registered in `gpkg_contents` as an attribute table, and the getter then reads the version written |
| InputBase.LayerNameInjective | python/ribasim/ribasim/input_base.py:69-70 | two fields of one input type never share a layer name |
| InputBase.LayerNameParts | python/ribasim/ribasim/input_base.py:69-70 | a layer name splits back at the delimiter into the input type and the field, and its style name is `<input_type>_<field>Style` |
| InputBase.WrittenFacts | python/ribasim/ribasim/input_base.py:86-97 | a layer is written exactly for each field holding a table, under the field's layer name, holding that table |
| InputBase.WriteThenRead | python/ribasim/ribasim/input_base.py:72-116 | reading back what was written gives every written field its table; a field written as nothing reads whatever layer was there before |
| InputBase.Geopackage.Exists | python/ribasim/ribasim/input_base.py:23-30 | a table exists exactly when the geopackage has it |
| InputBase.Geopackage.KwargsFromGeopackage | python/ribasim/ribasim/input_base.py:100-116 | the loop over the fields computes one entry per field: the layer under the field's layer name when it exists, else None |
| InputBase.InsertRowRows | python/ribasim/ribasim/input_base.py:187 | inserting a row keeps every row and adds that one |
| InputBase.InsertRowSorted | python/ribasim/ribasim/input_base.py:187 | inserting into a table in `node_id` order keeps it in order |
| InputBase.SortByNodeFacts | python/ribasim/ribasim/input_base.py:176-188 | sorting gives a permutation of the rows in `node_id` order |
| InputBase.Input.SortAsWritten | python/ribasim/ribasim/input_base.py:176-188 | as written `sort` changes no field, because the sorted table is bound to a local name only |
| InputBase.UnsortedTableExists | python/ribasim/ribasim/input_base.py:176-188 | a table out of `node_id` order exists, so the written `sort` leaves a table unsorted |
| InputBase.Input.Sort | python/ribasim/ribasim/input_base.py:176-188 | as intended every field's table is replaced by its rows sorted by `node_id` |
| InputBase.Input.Write | python/ribasim/ribasim/input_base.py:72-97 | `write` runs the sort, whose result is discarded, keeps the frames, and stores each field holding a table as its own layer, replacing a layer of that name and keeping the others |
| InputBase.ArrowKwargs | python/ribasim/ribasim/input_base.py:119-122 | reading the Arrow entries succeeds exactly when every entry is a string naming an Arrow file; the result has the same keys, each holding its file's table |
| InputBase.SectionAlwaysFails | python/ribasim/ribasim/input_base.py:144-170 | as written `from_config` fails whenever the input type's section is a non-empty table, because the whole configuration is passed to `_kwargs_from_toml` |
| InputBase.FromConfigMerged | python/ribasim/ribasim/input_base.py:144-170 | with the section passed, `from_config` builds the instance from the geopackage layers updated with the section's Arrow tables |
| InputBase.MergedFacts | python/ribasim/ribasim/input_base.py:161-170 | there is no instance exactly when the Arrow side is empty and no geopackage layer was found; otherwise the Arrow tables win on shared keys |
| InputBase.FromConfigFacts | python/ribasim/ribasim/input_base.py:144-170 | with a geopackage and readable Arrow entries the corrected `from_config` succeeds, gives None exactly when nothing was found, and otherwise holds every Arrow table under its key and every other field's geopackage layer |
| Migrations.Remove | python/ribasim/ribasim/migrations.py:19 | the remaining column names are exactly the others |
| Migrations.RemoveConcat | python/ribasim/ribasim/migrations.py:19 | removal keeps the order of the remaining columns |
| Migrations.RemoveAbsent | python/ribasim/ribasim/migrations.py:17-22 | removing an absent column changes nothing |
| Migrations.DropColumn | python/ribasim/ribasim/migrations.py:19 | the column goes; every other column keeps its values, the index stays |
| Migrations.NodeMigration | python/ribasim/ribasim/migrations.py:7-13 | a non-unique `node_id` column fails the assertion; a unique one becomes the index and leaves the columns; without one the table is unchanged |
| Migrations.EdgeMigration | python/ribasim/ribasim/migrations.py:16-27 | none of `from_node_type`, `to_node_type`, `edge_id` remains as a column; every other column keeps its values; `edge_id`, if present, becomes the index, otherwise the index stays |
| Migrations.DropMigration | python/ribasim/ribasim/migrations.py:30-71 | the obsolete column of each of the five migrations goes if present; nothing else changes |
| Migrations.MigrationsIdempotent | python/ribasim/ribasim/migrations.py:7-71 | running any migration twice is running it once |
| Migrations.Frame.Drop | python/ribasim/ribasim/migrations.py:19 | the in-place drop makes the frame the value-level drop |
| Migrations.Frame.SetIndexTo | python/ribasim/ribasim/migrations.py:11 | the in-place `set_index` makes the frame the value-level one |
| Migrations.MigrateNodes | python/ribasim/ribasim/migrations.py:7-13 | the in-place migration fails exactly as the value-level one, leaving the frame unchanged then, and otherwise returns the same frame holding its result |
| Migrations.MigrateEdges | python/ribasim/ribasim/migrations.py:16-27 | the in-place migration returns the same frame holding the value-level result |
| Migrations.MigrateDrop | python/ribasim/ribasim/migrations.py:30-71 | the in-place drop returns the same frame holding the value-level result |
| FilterModel.KeptConcat | utils/filter_model.py:50-53 | the mask works row by row, so the kept rows keep their order |
| FilterModel.KeptMembers | utils/filter_model.py:50-53 | the kept rows are exactly the rows inside the period or without a time |
| FilterModel.KeptLength | utils/filter_model.py:53-55 | no more rows are kept than there were, and all are kept exactly when the table is unchanged |
| FilterModel.KeptIdempotent | utils/filter_model.py:50-53 | filtering the kept rows again keeps them all |
| FilterModel.FilteredFacts | utils/filter_model.py:42-65 | a table changes only when rows were removed, then holding exactly the kept rows under the same columns; filtering again removes nothing |
| FilterModel.FilterTimeTables | utils/filter_model.py:33-67 | the total is the sum of the rows removed per table, and each table ends as its filtered version |
| ExpandLogic.Prefixed | python/ribasim_testmodels/ribasim_testmodels/dutch_waterways.py:191 | each string with the letter put in front, in order |
| ExpandLogic.Subs | python/ribasim_testmodels/ribasim_testmodels/dutch_waterways.py:191 | `product("TF", repeat=k)` has 2^k entries, each a T/F string of length k |
| ExpandLogic.SubsDistinct | python/ribasim_testmodels/ribasim_testmodels/dutch_waterways.py:191 | the substitutions are pairwise different |
| ExpandLogic.SubsComplete | python/ribasim_testmodels/ribasim_testmodels/dutch_waterways.py:191 | every T/F string of length k is a substitution |
| ExpandLogic.Substitute | python/ribasim_testmodels/ribasim_testmodels/dutch_waterways.py:192-200 | a substituted truth state has the length of the truth state |
| ExpandLogic.SubstituteAt | python/ribasim_testmodels/ribasim_testmodels/dutch_waterways.py:195-200 | a place not holding `A` keeps its letter; the `A` at place p gets the letter of the substitution numbered by the `A`s before p |
| ExpandLogic.CountPrefixBound | python/ribasim_testmodels/ribasim_testmodels/dutch_waterways.py:197-198 | an `A` has fewer `A`s before it than the prefix it closes, so `index_s` stays inside the substitution |
| ExpandLogic.InstanceSubstitutes | python/ribasim_testmodels/ribasim_testmodels/dutch_waterways.py:191-202 | a T/F fill of the `A`s is the substitution of its own letters at the `A`s |
| ExpandLogic.ExpansionsFacts | python/ribasim_testmodels/ribasim_testmodels/dutch_waterways.py:185-202 | a truth state with k `A`s expands to exactly 2^k states, each once: every expansion is an instance of the truth state, and every instance is an expansion |
| ExpandLogic.SubstituteInjective | python/ribasim_testmodels/ribasim_testmodels/dutch_waterways.py:191-202 | different substitutions give different expansions |
| ExpandLogic.PlaceOfA | python/ribasim_testmodels/ribasim_testmodels/dutch_waterways.py:195-198 | for every j below the number of `A`s there is a place holding `A` with exactly j `A`s before it |
| ExpandLogic.FillState | python/ribasim_testmodels/ribasim_testmodels/dutch_waterways.py:192-200 | the inner loop with its `index_s` counter computes the reference substitution |
| ExpandLogic.ExpandedConcat | python/ribasim_testmodels/ribasim_testmodels/dutch_waterways.py:185-212 | expanding a concatenation is concatenating the expansions, so the rows stay in input order |
| ExpandLogic.ExpandedRowsFrom | python/ribasim_testmodels/ribasim_testmodels/dutch_waterways.py:204-212 | every output row copies node id and control state from some input row and carries an instance of its truth state |
| ExpandLogic.ExpandLogicRows | python/ribasim_testmodels/ribasim_testmodels/dutch_waterways.py:178-214 | the nested loops compute the reference expansion |
| ReleaseTag.ParseMatches | utils/github-release.py:19-34 | a tag parses exactly when it matches one of the three patterns, as a prerelease exactly when it matches the dev or rc pattern, and it is then the tag of the version it parses to |
| ReleaseTag.FormatParse | utils/github-release.py:19-27 | every valid version's tag matches a pattern, is a prerelease exactly for a dev or rc version, and parses back to that version |
| ReleaseTag.RunRelease | utils/github-release.py:13-67 | no release unless `git describe` succeeded with a tag starting `v20`; a stripped tag matching no pattern raises ValueError; otherwise the `gh release create` command with `--prerelease` exactly for a prerelease tag, followed by the four archives |
| PythonCli.FirstWord | python/ribasim/ribasim/cli.py:81-82 | an output opening with `ribasim ` has `ribasim` as its first word |
| PythonCli.SecondWordExists | python/ribasim/ribasim/cli.py:80-85 | a stripped output opening with `ribasim ` always has a second word, so the guarded IndexError cannot happen |
| PythonCli.CliVersionFound | python/ribasim/ribasim/cli.py:72-87 | a version is found exactly when `--version` ran and its stripped output opens with `ribasim ` |
| PythonCli.SplitHead | python/ribasim/ribasim/cli.py:84 | the part before the first `-` holds no `-` and opens the text |
| PythonCli.CliVersionShape | python/ribasim/ribasim/cli.py:82-84 | the version found holds no `-` and opens the second word |
| PythonCli.StripKeeps | python/ribasim/ribasim/cli.py:80 | strip keeps a text whose ends are not whitespace |
| PythonCli.WordsOfRibasim | python/ribasim/ribasim/cli.py:82 | the words of `ribasim <w>` are `ribasim` and w |
| PythonCli.CliVersionOfWord | python/ribasim/ribasim/cli.py:79-84 | the output `ribasim <w>` gives the part of w before its first `-` |
| PythonCli.CliVersionPlain | python/ribasim/ribasim/cli.py:79-84 | the output `ribasim <v>` gives v back |
| PythonCli.CliVersionBuild | python/ribasim/ribasim/cli.py:79-84 | the output `ribasim <v>-<build>` of a development build gives v back |
| PythonCli.PlatformTarget | python/ribasim/ribasim/cli.py:103-117 | only 64-bit Windows and Linux are supported, with their archive and executable names; anything else is a RuntimeError |
| PythonCli.FilterPathFacts | python/ribasim/ribasim/cli.py:176-181 | the filter keeps exactly the entries not resolving to the scripts directory, entry by entry, so order is kept |
| PythonCli.FilterPathIdempotent | python/ribasim/ribasim/cli.py:176-181 | filtering twice is filtering once |
| PythonCli.FilteredPathReads | python/ribasim/ribasim/cli.py:176-185 | the filtered PATH, joined and split again, is the list of kept entries |
| PythonCli.FirstHolding | python/ribasim/ribasim/cli.py:185 | `shutil.which` finds a file in one of the listed directories, and finds nothing exactly when no directory holds the executable |
| PythonCli.Machine.DownloadCli | python/ribasim/ribasim/cli.py:90-149 | an unsupported platform changes nothing and raises; otherwise the cached executable is returned, reused exactly when it exists and reports the package version, and fetched from the release URL otherwise |
| PythonCli.Machine.FindCli | python/ribasim/ribasim/cli.py:152-195 | the outcome is the lookup's: a program on the filtered PATH is returned only when it reports the package version; otherwise the result, files and downloads are those of the release download |
| PythonCli.Machine.RunRibasim | python/ribasim/ribasim/cli.py:230-290 | the lookup's error propagates; after a found program, return code 0 gives its path and a non-zero code raises CalledProcessError carrying it |
| PythonCli.FindOutcomeFacts | python/ribasim/ribasim/cli.py:152-195 | the lookup fails exactly when no PATH program matches and the platform is unsupported; a found path is a file; a path not from PATH is the cached executable; a PATH match downloads nothing; a download appends one release URL and adds the executable |
| PythonCli.RunOutcomeFacts | python/ribasim/ribasim/cli.py:230-290 | running fails exactly when the lookup fails or the return code is non-zero; it raises CalledProcessError exactly for a non-zero code after a successful lookup; success means code 0 and the found path; files and downloads are the lookup's |
| Task.StemNoDot | ribasim_qgis/widgets/task.py:29 | a name without a dot is its own stem |
| Task.ModelNameOf | ribasim_qgis/widgets/task.py:27-29 | `path/to/basic/ribasim.toml` names the model `basic/ribasim` |
| Task.DigitEnd | ribasim_qgis/widgets/task.py:71 | the end of the run of digits starting at a place |
| Task.PercentFromFacts | ribasim_qgis/widgets/task.py:71 | the search finds the leftmost digits-then-`%` match at or after a place, and nothing when there is none |
| Task.PercentFacts | ribasim_qgis/widgets/task.py:71-73 | the percentage of a line is the number of the leftmost match, and there is none exactly when the pattern does not occur |
| Task.EmissionsStep | ribasim_qgis/widgets/task.py:58-76 | one more line read adds its emission after the others |
| Task.EmissionsLines | ribasim_qgis/widgets/task.py:63-76 | every line is forwarded right-stripped, in order |
| Task.EmissionAt | ribasim_qgis/widgets/task.py:63-76 | the emission for line k is that line right-stripped, and it replaces the previous emission exactly when it is a progress line and some earlier line was one |
| Task.EmissionsReplace | ribasim_qgis/widgets/task.py:67-70 | a line replaces the previous one exactly when it is a progress line and an earlier line was one too |
| Task.LastProgressStep | ribasim_qgis/widgets/task.py:69-73 | one more line read sets the progress when it is a progress line with a percentage |
| Task.LastProgressFacts | ribasim_qgis/widgets/task.py:69-73 | the progress is the percentage of the last progress line that has one, and stays where it was when no line has one |
| Task.RibasimTask.ForwardLine | ribasim_qgis/widgets/task.py:63-76 | one line: right-stripped, it sets the progress when it is a progress line with a percentage, and is forwarded, replacing the previous line exactly when a progress line was seen before |
| Task.RibasimTask.ForwardLines | ribasim_qgis/widgets/task.py:58-76 | the loop is cancelled exactly when the cancellation comes before the output ends, terminating the process; the lines handled are forwarded and set the progress as the reference says |
| Task.RibasimTask.Run | ribasim_qgis/widgets/task.py:40-87 | a failed start or an exception sets exit code -1 and reports failure; the process is the CLI on the TOML file; a cancel reports failure with the process terminated and the exit code unset; otherwise the exit code is the return code and success means 0 |
| Task.SimulatingStep | ribasim_qgis/widgets/task.py:67-70 | one more line read: a progress line has been seen when one was before or this line is one |
| Bytes.PackI32 | python/ribasim/ribasim/delwaq/util.py:64 | `struct.pack("<i", x)` succeeds exactly when `x` fits in a signed 32-bit integer, giving four bytes, and raises `struct.error` otherwise |
| Bytes.PackUnpack | python/ribasim/ribasim/delwaq/util.py:81 | the four little-endian bytes written for a 32-bit time read back as the same signed integer |
| Bytes.LowByte | build/cli/src/main.rs:96 | the `as u8` cast keeps the value modulo 256 |

## Left out

- Foreign calls, the file dialog, process spawning, file-system queries and network downloads are not performed: their results are inputs, and downloads and archive extraction are recorded as the steps the code takes.
- Reading and writing SQLite, GeoPackage, TOML, Arrow and NetCDF files: tables and configurations are maps and sequences of rows.
- Pydantic and pandera validation, and the geopandas/xugrid serialisation behind the input classes.
- Floating point: flow and volume values of the Delwaq files are uninterpreted values, coordinates are an abstract point type compared only for equality, and download progress percentages are not modelled.
- Time values are integers (seconds or timestamps); `pd.to_datetime` parsing is not modelled.
- Python's `\d`, `str.strip`, `str.isupper`, `str.lower` and `int()` are Unicode-aware, and `int()` also accepts `_` digit separators; the model treats characters as ASCII and reads only plain decimal digits.
- Error messages are modelled by exception class, with the message text where it identifies the case; wording of composed messages is approximated.
- Where several errors are possible, Python's dictionary iteration order decides which one is raised first; the model checks the cases in a fixed order.
- `warnings.warn`, `print` and the QGIS message log are left out.
- `JULIA_NUM_THREADS`: build/cli/src/main.rs always sets it to the `--threads` value (default `"1"`); build/tests/test_cli.py:69-82 expects a preset value to survive. The model follows the code.
- The thread of the QGIS task (QgsTask) and its `finished` signal: the line loop is modelled sequentially, and cancellation is an input giving the first line at which `isCanceled()` is seen. The `if proc.stdout` guard always holds in the model.
- The notebook display branch of `run_ribasim` is left out.
- `shutil.which` and `Path.resolve()` (symlinks, `..`) are inputs or left out: paths are compared as normalised part sequences.
- The order in which networkx relabels nodes (it may fail or reorder with overlapping labels) and the enumeration order of `simple_cycles`: graphs are node and edge sequences in insertion order, relabelling is a renaming that keeps that order, and cycles are found by scanning edges in order.
- The duplicated index that `pd.concat` gives the expanded logic table in `expand_logic` is not modelled: the result is the sequence of rows.
- pandas sorting by several keys is modelled as a stable insertion sort on the key; `ignore_index`, `index_col` and `parse_dates` are left out.
- `UsedIDs` is not part of this model (it is not among the source files shown): a new link id is taken to be one more than the largest id in use.
- `SPATIALCONTROLNODETYPES` of the QGIS topology module and the `USE_EVAP` constant of the older Delwaq exporter are parameters.
- The link table and connectivity tables are parameters: the neighbour-limit tables appear under two names across versions and are not reconciled.
- The `$node_id` exception of the older Delwaq exporter cannot be reached after simplification; the model proves so instead of raising it.
- The docstring of `parse_name` in plugin/ribasim_qgis/core/nodes.py disagrees with its code; the model follows the code.
- In `get_external_input_files` a second table of the same key overwrites the first; modelled as written.
- The launcher leaves to clap the exit on malformed arguments, and the panic of `current_exe().unwrap()` when the executable path cannot be read is not modelled: the executable path is an input.
- The output of QGIS's `native:explodelines` processing algorithm is an input of `ExplodeLines`, which models the renumbering and replacement around it.
- `_setup_graph` (DelwaqGenerate.SetupGraph), `Input.Write` and the coupled script's timestep (DelwaqCoupled.Generate) are built from the phases, the sort and the timestep check as written; the corrected definitions of the Findings stand beside them, tied to them by DelwaqBypass.ConnectorPhaseRefines, DelwaqCycles.TerminalPhaseRefines, DelwaqGenerate.SimplifyAgrees and DelwaqGenerate.SimplifyFailsAlike.
- build/cli_wrapper/src/main.rs is unfinished (`todo!()`) and is not modelled.
- Bytes.LowByte: states the value modulo 256, which fixes the byte; Rust's bit-level cast is not spelled out.

## Findings

| source | as written | input that shows it | evidently intended | confidence | as-written member | corrected member |
|---|---|---|---|---|---|---|
| python/ribasim/ribasim/delwaq/generate.py:173-179 | the isolated nodes are collected before the connector nodes are removed, then removed again | a Pump with no links: it is removed among the connectors and then once more as an isolate, and networkx raises | remove each node once | not executed | DelwaqBypass.IsolatedConnectorFails | DelwaqBypass.ConnectorPhaseFacts |
| python/ribasim/ribasim/delwaq/generate.py:200-212 | a Terminal is queued for removal once per UserDemand cycle it closes | two UserDemands returning to one Terminal: the second removal of that Terminal raises | remove each Terminal once | not executed | DelwaqCycles.SharedTerminalFails | DelwaqCycles.TerminalPhaseFacts |
| python/ribasim/ribasim/delwaq/generate.py:400-401 | the saveat check rejects only zero and infinity | `saveat = -1.0` passes the check and becomes a negative time step | a positive time step | not executed | DelwaqGenerate.NegativeSaveatAccepted | DelwaqGenerate.TimestepRefinesAsWritten |
| python/ribasim/ribasim/input_base.py:182-188 | `sort` calls `sort_values` without `inplace` and discards the result | a table with node ids 2 then 1: `sort` leaves it in that order | the table sorted by its key | not executed | InputBase.UnsortedTableExists | InputBase.SortByNodeFacts |
| python/ribasim/ribasim/input_base.py:163-165 | `from_config` passes the whole configuration to `_kwargs_from_toml` instead of the node type's section | `{"geopackage": "model.gpkg", "basin": {"static": "basin/static.arrow"}}`: the `basin` section itself is taken as an Arrow path and the call raises, on every configuration whose section is a non-empty table | read the tables the node type's section names | not executed | InputBase.SectionAlwaysFails | InputBase.FromConfigFacts |
