# mcat-ras in Dafny

A model of the core of mcat-ras, the service that inspects HEC-RAS model bundles kept
in an object store. A bundle is a directory holding:

- a project file (`.prj`), the definition file of the model;
- plan files (`.p##`), geometry files (`.g##`) and flow files (`.f##`, `.u##`, `.q##`);
- optionally a projection file (`.prj` or `.pro` under another name).

The model covers:

- **Geometry readers** (`tools/geom.go`):
  - fixed-width numeric blocks, value pairs, description blocks and bridge decks;
  - the per-reach structure counts;
  - the geometry-file scan.
- **Plan reader** (`tools/plan.go`).
- **Assembler** (`tools/model.go`). NewRasModel:
  - dispatches each file of the bundle on its extension;
  - runs a reader per file;
  - resolves the projection;
  - aggregates the program versions.

  The `RasModel` methods Index and GeospatialData are modelled too.
- **Request handlers** that work straight on the store:
  - modFiles, pullVersion and getVersions (`handlers/modelversion.go`);
  - isAModel (`handlers/isamodel.go`);
  - isGeospatial (`handlers/isgeospatial.go`).
- **Detailed bucket listing** (`tools/list_adapter.go`).
- **Flow-file dispatch of the forcing data** (`tools/forcing.go`).

The object store is a value, `ObjectStore.Bucket`, with three parts:

- each object's content, as the lines a Go `bufio.Scanner` yields;
- each listing, with and without a delimiter;
- each directory read.

A missing entry stands for the store's error.

How each kind of code is modelled:

- **Readers that share a scanner** are methods on a `LineScanner.Scanner` object. Each is
  proved equal to a function over the lines and the scanner position. The properties
  are lemmas about those functions, and they cover all inputs.
- **The assembler** is a `RasModel` class whose fields the methods update.
- **The forcing data** is a class with map fields, and the error channel is a class with
  a sequence field.
- **Go panics** that depend on stored content are a `Panic` failure. Examples: a
  fixed-width slice past the end of a line, a missing comma field, an extension
  shorter than two characters in a listing.

Numbers are exact: `ParseFloat` reads decimal syntax into a `real` and rejects values
that overflow a float64, and `Atoi` checks the int64 range.

Several loops pass lines over to a sub-reader: a description reader, the deck reader,
the bridge reader. Each such loop has a function (`BridgeVisited`, `StructureVisited`,
`GeomVisited`, `PlanVisited`) that lists the lines the loop's own switch tests, in order.
A companion lemma (`...VisitedGaps`) proves that the lines left out are exactly those of
the blocks the sub-readers consume. The properties of a loop are stated over the lines it
tests: counts, the last value of a key, the reaches found.

Where files of the source disagree, the model follows the code it models:

- The assembler aggregates versions in the order plans, then geometries, then flows.
- `getPlanData` takes three parameters where its caller passes four.
- The handlers use an exported `RasRE` where `tools/model.go` declares `rasRE`. Both
  are modelled as the same patterns.

## Model

| member | source | states |
|---|---|---|
| GeomReaders.SeqMax | tools/geom.go:59-72 | the maximum of a non-empty list is one of its elements and no element exceeds it |
| GeomReaders.SeqMin | tools/geom.go:74-87 | the minimum of a non-empty list is one of its elements and no element is below it |
| GeomReaders.MaxValue | tools/geom.go:59-72 | an empty list gives 0 and the "Cannot detect a maximum value" error; otherwise no error and an element no smaller than any other |
| GeomReaders.MinValue | tools/geom.go:74-87 | an empty list gives 0 and the "Cannot detect a minimum value" error; otherwise no error and an element no larger than any other |
| GeomReaders.NumberOfLines | tools/geom.go:116-119 | the row count is the ceiling of nValues / (colWidth / valueWidth): n-1 rows hold too few values, n rows hold them all |
| GeomReaders.GetDescription | tools/geom.go:93-115 | consumes the lines up to and including the first holding the end marker (or all of them), returns the non-empty lines before it joined by "\n", and advances idx by the lines consumed |
| GeomReaders.DescriptionLineStep | tools/geom.go:106-112 | an empty line leaves the description as it is; any other line is appended, after "\n" unless it is the first |
| GeomReaders.DescriptionLines | tools/geom.go:93-115 | splitting a non-empty description at "\n" gives back exactly the non-empty lines of the block |
| GeomReaders.ValueAtSlice | tools/geom.go:133-149 | the field at offset s is line[s:s+valueWidth] trimmed: blank is skipped, otherwise it is parsed; the slice panics exactly when it runs past the line's end |
| GeomReaders.RowValuesAdvance | tools/geom.go:133-149 | a number read at offset s joins the values so far, and the row continues one field width on |
| GeomReaders.AppendRowValues | tools/geom.go:133-151 | the inner loop appends exactly the values of one row to the values so far, or fails with that row's error |
| GeomReaders.DataFromTextBlock | tools/geom.go:121-157 | the method's result and the scanner position it leaves are those of the block function: skip nSkipLines lines, then read nLines rows |
| GeomReaders.ReadRowsStep | tools/geom.go:126-155 | a failing row ends the read at the next line; any other row adds its values, and one row fewer is left to read from the next line |
| GeomReaders.ReadRowsConsumes | tools/geom.go:126-155 | a successful read of count rows consumes exactly min(count, lines left) lines |
| GeomReaders.DataBlockConsumes | tools/geom.go:121-157 | a successful block stops after nSkip + nLines lines (or at the end of input); with nLines <= 0 the row count is never reached and it reads to the end |
| GeomReaders.FieldAtSlice | tools/geom.go:414-421 | the pair field at offset s is line[s:s+valueWidth] trimmed and parsed; the slice panics exactly past the end of the line |
| GeomReaders.RowPairs | tools/geom.go:412-430 | a row that reaches the pair count has exactly nPairs pairs in all; one that does not leaves fewer; a row started at or past the count never reports reaching it |
| GeomReaders.AppendRowPairs | tools/geom.go:412-430 | the inner loop appends the pairs of one row, stopping at the nPairs-th pair, and reports whether the count was reached |
| GeomReaders.PairsBlockRow | tools/geom.go:410-431 | a failing row ends the block with its error, a row reaching the count ends it with the pairs so far, any other row hands on to the next line |
| GeomReaders.DataPairsFromTextBlock | tools/geom.go:406-433 | the method's result and final scanner position are those of the pair-block function |
| GeomReaders.PairsBlockCount | tools/geom.go:406-433 | a successful pair block never returns more than nPairs pairs, and returns fewer only when the input ran out |
| GeomReaders.GetDataPairsFromTextBlock | tools/geom.go:435-452 | the method's result and final scanner position are those of the count-line-then-pairs function |
| GeomReaders.DataPairsCount | tools/geom.go:435-452 | without a count line there are no pairs and the input is consumed; with a count n >= 1 at most n pairs come back, fewer only at the end of input |
| GeomReaders.FirstPrefixed | tools/geom.go:437-439 | the first line at or after from that starts with the prefix, or the end; no earlier line starts with it |
| GeomReaders.KeyedValue | tools/geom.go:89-91 | a line gives a value for a key exactly when it starts with that key; the line's first '=' is then the key's own, and the value is the text after it up to the next '=' or the end, trimmed of white space |
| GeomBridges.Extremes | tools/geom.go:174-183 | maxValue then minValue fail exactly on an empty list (with the maximum's error); otherwise both are elements bounding every element |
| GeomBridges.MaxIsSeqMax | tools/geom.go:59-72 | any element that bounds the list from above is its maximum, so maxValue's result is unique |
| GeomBridges.BlockExtremes | tools/geom.go:174-199 | the pair of maxValue and minValue calls gives exactly the extremes, with the first error of the two |
| GeomBridges.GetHighLowChord | tools/geom.go:159-201 | the method's result and final scanner position are those of the chord function: count, skipped station rows, high chord rows, then low chord rows at 80/8 |
| GeomBridges.ChordsOrdered | tools/geom.go:159-201 | both chords read have min <= max; an elevation count that is not an integer is an error before any line is consumed |
| GeomBridges.ZeroElevationsReadToEnd | tools/geom.go:167-169 | a count of 0 or fewer gives zero rows, and the high-chord read then consumes every remaining line |
| GeomBridges.ReadDeck | tools/geom.go:225-245 | the deck section (deck width, then upstream and downstream chords read with the counts in fields 4 and 5, counting from 0) equals its function, scanner position included |
| GeomBridges.GetBridgeData | tools/geom.go:203-255 | the method's result and final scanner position are those of the bridge-block function |
| GeomBridges.BridgeVisited | tools/geom.go:212-253 | the lines the loop tests, in increasing order from the first line; only the last may be a "BR Coef" line |
| GeomBridges.BridgeVisitedGaps | tools/geom.go:212-253 | the loop passes over only the lines of a description block (215-220) or the deck lines after a "Deck Dist" line (225-245), and it tests lines up to the first "BR Coef" line or the end |
| GeomBridges.DeckStepAnyBridge | tools/geom.go:225-245 | the deck reader stops at the same line, and fails or not, whatever bridge it fills; it keeps the name, station, description and pier count |
| GeomBridges.BridgeScanCounts | tools/geom.go:212-254 | a successful loop adds one pier per "Pier Skew" line it tests, takes the name of the last "Node Name=" line it tests (else keeps the name), keeps the station, and stops just after the first "BR Coef" line it tests, or at the end |
| GeomBridges.BridgeRecord | tools/geom.go:203-254 | a bridge read after a structure line has the parsed second field as its station, the name of the last "Node Name=" line the loop tests (else ""), and one pier per "Pier Skew" line it tests |
| GeomBridges.StationFirst | tools/geom.go:206-209 | a structure line with no second field panics, and a station ParseFloat rejects is ParseFloat's own error; both happen before any line is read |
| GeomFile.TypeLineStep | tools/geom.go:281-305 | a structure line yields a record, or the error that stops the scan, and always moves past that line |
| GeomFile.ReadStructureLine | tools/geom.go:281-305 | one structure line on the scanner equals its step function: a code that is not an integer is the error, code 3 reads a bridge, codes 1, 2 and 5 are counted |
| GeomFile.ReadBridgeStructure | tools/geom.go:294-300 | a type 3 line reads the bridge block after it and counts the bridge in; a failing bridge read is the error |
| GeomFile.ScanStructures | tools/geom.go:270-309 | the scan after the reach line equals its function, stopping at the next "River Reach=" line or the end |
| GeomFile.StructureVisited | tools/geom.go:270-309 | the lines the loop tests after the reach line, in increasing order; only the last may be a "River Reach=" line |
| GeomFile.StructureVisitedGaps | tools/geom.go:275-307 | the loop passes over only the lines of a bridge block (294-300), and it tests lines up to the next reach line or the end |
| GeomFile.LineRecordCounts | tools/geom.go:281-305 | one structure line adds one of the kind its code names (1, 2, 5 or 3) and the bridge it reads, and keeps the names |
| GeomFile.StructureScanCounts | tools/geom.go:275-312 | a successful loop adds one cross section, culvert, inline structure and bridge per tested line of code 1, 2, 5 and 3, appends those bridges in order, keeps the names, and stops just after the next reach line, or at the end |
| GeomFile.StructureData | tools/geom.go:257-313 | the record for reach idx never reads past the end of the file |
| GeomFile.GetHydraulicStructureData | tools/geom.go:257-313 | the file is fetched afresh and scanned to line idx and on, giving exactly the structure-data record (whose properties are the next rows) |
| GeomFile.StructureRecord | tools/geom.go:257-313 | a file that cannot be fetched, or an idx past its end, gives an empty record and no error; a line idx without '=' or a second comma field panics; otherwise the river and reach are the trimmed first and second fields, the cross-section, culvert, inline and bridge counts are the numbers of lines of codes 1, 2, 5 and 3 that the loop tests after line idx, the bridges are those lines' bridges in order, and the bridge count is the number of bridges |
| GeomFile.BridgesCounted | tools/geom.go:295-300 | the bridge count always equals the number of bridges kept |
| GeomFile.GeomLine | tools/geom.go:335-366 | handling one line moves forward and never changes the record's path or extension |
| GeomFile.ReadGeomFile | tools/geom.go:316-370 | reading a geometry file gives its record, or the first error that stops the scan, as the geometry-data function defines |
| GeomFile.GeomVisited | tools/geom.go:335-367 | the lines the loop tests from pos, in increasing order, starting with pos |
| GeomFile.GeomVisitedGaps | tools/geom.go:335-367 | the loop passes over only the lines of a description block that a tested "BEGIN GEOM DESCRIPTION:" line opens (344-352), up to the end of the file |
| GeomFile.GeomLineStep | tools/geom.go:335-366 | one tested line: the loop goes on at the next tested line, a reach or storage area line ends the header, a title or version line sets that field to the text right of its '=', and a reach line whose record reads appends it |
| GeomFile.ReachesAmong | tools/geom.go:354 | the indices picked are tested lines that start with "River Reach=", in order |
| GeomFile.LastHeaderWins | tools/geom.go:335-366 | the title and the program version are those of the last line of each key that the loop tests, or stay as they were; while the header lasts, description block lines are not tested |
| GeomFile.HeaderEnds | tools/geom.go:354-363 | a "River Reach=" or "Storage Area=" line ends the header, so later description blocks are skipped |
| GeomFile.DescriptionFrozen | tools/geom.go:344-352 | once the header has ended, the description never changes |
| GeomFile.GeomDescriptionStep | tools/geom.go:335-366 | one tested line adds to the description the text of the block it opens while the header lasts, and nothing otherwise |
| GeomFile.GeomDescriptionsGathered | tools/geom.go:335-366 | the description the loop leaves is the old one followed by the text of each description block a tested line opens before the first reach or storage area line, in file order |
| GeomFile.GeomFileDescription | tools/geom.go:316-366 | a geometry file's description is exactly the text of the description blocks its loop opens while the header lasts, in order |
| GeomFile.ReachLineKind | tools/geom.go:337-365 | a "River Reach=" line matches none of the other prefixes the switch tests |
| GeomFile.ReachesRecorded | tools/geom.go:335-367 | the scan appends one structures record per "River Reach=" line the loop tests, in file order, each that reach's record |
| GeomFile.GeomFileReaches | tools/geom.go:316-370 | a geometry file's record names the file and its extension, and holds one record per reach line the loop tests, in order |
| GeomFile.PathKept | tools/geom.go:320 | the scan never changes the record's path and extension |
| PlanFile.Set | tools/plan.go:80-97 | setting one plan field changes that field only |
| PlanFile.Assignment | tools/plan.go:77-118 | a line that sets the regime holds no '=', names a regime, and is the regime's value; a line opening a description sets nothing |
| PlanFile.DescriptionStep | tools/plan.go:101-114 | each non-empty description line adds itself and "\n"; an empty line adds nothing |
| PlanFile.ReadPlanDescription | tools/plan.go:101-114 | the inner loop consumes up to the "END DESCRIPTION" line and returns the text of the lines before it |
| PlanFile.ReadPlanFile | tools/plan.go:31-125 | reading a plan file gives exactly the plan-data function's record |
| PlanFile.PlanRecord | tools/plan.go:34-119 | the record always has the path and extension; the failure note appears exactly when the file cannot be fetched; only a read file gets its digest, and its description is the text of every description block its loop opens, in order |
| PlanFile.PlanScanKeeps | tools/plan.go:58-119 | the scan keeps path, digest, extension and note, and the description only grows |
| PlanFile.DescriptionsGathered | tools/plan.go:99-114 | the description the loop leaves is the old one followed by the text of each description block a tested line opens, in file order |
| PlanFile.KeyLine | tools/plan.go:77-97 | a line with '=' sets the field its key names, the key being the text before the first '=' and the value the untrimmed text up to the next '='; an unknown key sets nothing |
| PlanFile.PlanVisited | tools/plan.go:58-119 | the lines the loop tests from pos, in increasing order, starting with pos |
| PlanFile.PlanVisitedGaps | tools/plan.go:58-119 | the loop passes over only the lines of a description block that a tested line opens (99-114), up to the end of the file |
| PlanFile.PlanLineStep | tools/plan.go:77-118 | one tested line gives the field it assigns its value and leaves the other fields alone; the loop goes on after the description block it opens, or at the next line |
| PlanFile.LastAssignmentWins | tools/plan.go:77-118 | each field has the value of the last line the loop tests that assigns it, or keeps its old value; lines inside a description block are not tested |
| PlanFile.RegimeNeedsNoKey | tools/plan.go:77-118 | a line sets the regime exactly when it holds no '=', does not open a description, and names a regime |
| Numbers.ParseFloat | tools/geom.go:137 | text is accepted exactly when it is decimal syntax whose value v is of magnitude below 2^1024 - 2^970, the float64 overflow bound, and the result is then v; other decimal text gives ParseFloat's range error and anything else its syntax error; accepted text is non-empty and has no leading space |
| Numbers.Quote | tools/geom.go:137 | the text in ParseFloat's and Atoi's error messages appears between double quotes, as strconv.Quote writes it |
| Numbers.QuoteChar | tools/geom.go:137 | a character is written as itself exactly when it is not a quote, a backslash or an ASCII control character; those are written as an escape that starts with a backslash |
| Numbers.QuotePlain | tools/geom.go:137 | a text without quotes, backslashes or ASCII control characters appears unchanged between the quotes |
| Numbers.Atoi | tools/geom.go:162 | accepted values lie in the int64 range; every failure is an error, never a panic |
| Numbers.AtoiFormatInt | tools/list_adapter.go:42 | Atoi reads back every int64 that FormatInt writes in base 10 |
| Patterns.AllFlowIsUnion | tools/model.go:32-35 | the combined flow pattern matches exactly when the steady, unsteady or quasi-steady pattern does |
| Patterns.AllFlowRunIsUnion | tools/model.go:37-39 | the combined run pattern matches exactly when the steady-run or unsteady-run pattern does |
| Patterns.MatchInside | tools/model.go:29-41 | the patterns are unanchored: a text containing a match anywhere matches |
| RasModels.StandardExtensionRole | tools/model.go:299-324 | a dot-letter-two-digit extension is dispatched by its letter: p to plans, g to geometry, f/q/u to flows, anything else ignored |
| RasModels.ProjectionExtensionRole | tools/model.go:317-321 | a .prj or .pro file is a projection candidate unless it has the definition file's base name |
| RasModels.PlanBeforeGeometry | tools/model.go:303-311 | an extension matching both the plan and geometry patterns is a plan, since plans are tested first |
| RasModels.PlanRecordsAppended | tools/plan.go:38-40 | the workers leave exactly one plan record per plan file, in list order, whatever the other files do |
| RasModels.PlanRecordsNamed | tools/plan.go:34 | each plan record names a file dispatched to the plan reader, with that file's extension |
| RasModels.ProjectionValidated | tools/model.go:262-272 | the resolved projection is the starting one, "", or the validated first line of one of the projection files |
| RasModels.GeomRecordsMatch | tools/model.go:309-311 | every geometry record appended has an extension of at least four characters |
| RasModels.GeomFailureReported | tools/geom.go:322-326 | an unreadable geometry file's error is always among the reported errors |
| RasModels.ReadersFacts | tools/model.go:299-324 | the readers of NewRasModel dispatch by the switch, name plan files, keep geometry extensions, fail on missing geometry files, and fetch from the store |
| RasModels.EntriesConcat | tools/model.go:336-353 | the version entries of two record lists in a row are the first list's, then the second's |
| RasModels.ThreeLoops | tools/model.go:336-353 | the three version loops build the terminated entries of plans, then geometries, then flows |
| RasModels.EntriesEmpty | tools/model.go:336-353 | there are no entries exactly when no record has a version, and no entry is empty |
| RasModels.VersionJoined | tools/model.go:336-357 | dropping the final two characters gives the entries joined by ", " with no trailing separator; the version is "" exactly when no record has one |
| RasModels.FailedWorkerStops | tools/model.go:296-334 | an unreadable geometry file means the as-written ending never returns and the intended one fails; it crashes the process when that file's fault is a panic, and blocks forever when every worker fault is an error |
| RasModels.UnreadableGeometryBlocks | tools/model.go:296-334 | NewRasModel as written never returns when a geometry file of the bundle is missing from the store, and blocks forever when no worker panics; the intended assembly fails |
| RasModels.AsWrittenAgrees | tools/model.go:296-361 | the as-written assembly crashes exactly when some worker panics, since nothing recovers a panic in a worker's goroutine; it blocks exactly when the workers report faults and all of them are errors; otherwise it returns what the intended one does |
| RasModels.FinishedModel | tools/model.go:326-360 | after the workers: plan records per plan file, geometry extensions of 4+ characters, a validated or empty projection, and the version joined from the records |
| RasModels.AssembledModel | tools/model.go:278-361 | a valid model's plan records, geometry extensions, projection and version are as FinishedModel says, for the readers of this model |
| RasModels.RasModel.constructor | tools/model.go:279 | a new model has the key's directory, type "RAS", no version, no metadata, no files and is not valid |
| RasModels.RasModel.Index | tools/model.go:144-201 | a model that is not valid gives "model is not valid"; a valid one gives its type, version and definition file, each group's paths in order keyed by the last record's title, and empty output and supplemental lists |
| RasModels.RasModel.GeospatialData | tools/model.go:204-229 | no projection is an error before anything else; a unit mismatch is the next error; then the geometry files are extracted in order until one fails |
| RasModels.RasModel.GetModelFiles | tools/model.go:231-244 | a failed directory read is the error and leaves the list; otherwise every entry's joined path is appended in order, nothing else changing |
| RasModels.RasModel.GetProjection | tools/model.go:247-275 | an unfetchable file is an error; an invalid reference clears the projection; a second valid one is an error keeping the first; otherwise the first line is taken |
| RasModels.RasModel.RunWorker | tools/model.go:299-324 | one worker changes only the metadata, as the role of the file decides, and reports its error |
| RasModels.RasModel.Prepare | tools/model.go:279-294 | the project file, directory listing and header steps stop at the first error and otherwise leave the prepared file list and metadata |
| RasModels.RasModel.RunWorkers | tools/model.go:299-334 | the workers run over the file list in order and leave exactly the metadata and errors of the sequential fold |
| RasModels.RasModel.Complete | tools/model.go:296-360 | after the workers: the first worker error, or the records and the aggregate version |
| RasModels.RasModel.AggregateVersion | tools/model.go:336-357 | the version is "<ext>: <version>, " per record with a version (plans, geometries, flows), with its last two characters removed |
| RasModels.AppendVersions | tools/model.go:336-341 | one version loop appends the terminated entries of its records |
| RasModels.NewRasModel | tools/model.go:278-361 | the model is fresh and valid exactly when there is no error; the error or the file list, records and version are those of the intended assembly |
| Handlers.SelectedConcat | handlers/modelversion.go:63-79 | selecting from a concatenation concatenates the selections, so order is kept |
| Handlers.SelectedMembers | handlers/modelversion.go:63-79 | a name is selected exactly when an accepted element has it |
| Handlers.KeepDirs | handlers/modelversion.go:63-70 | the first loop keeps each directory, joined with its own name, whose path starts with the definition path minus "prj" |
| Handlers.KeepObjects | handlers/modelversion.go:72-79 | the second loop appends each key that starts with the stem, or whose name has extension ".prj" |
| Handlers.ModFiles | handlers/modelversion.go:54-82 | modFiles gives the kept directories, then the kept objects, of the undelimited listing of the definition's directory |
| Handlers.ModFilesListed | handlers/modelversion.go:54-82 | modFiles fails exactly when the listing does; a directory or object is listed exactly when it passes its test; directories come first |
| Handlers.KeptObjectsInOrder | handlers/modelversion.go:72-79 | the kept objects follow the listing order |
| Handlers.KeptDirsInOrder | handlers/modelversion.go:63-70 | the kept directories follow the listing order |
| Handlers.VersionLineFrom | handlers/modelversion.go:95-106 | the first line from pos holding "Program Version=", or the end; no line before it holds the key |
| Handlers.PullVersion | handlers/modelversion.go:84-113 | the scanning loop returns the pull-version result: fetched under the key without its leading '/' |
| Handlers.VersionFound | handlers/modelversion.go:95-106 | a version is found exactly when a line holds the key; it is the untrimmed text between the first '=' of the first such line and the next '=' |
| Handlers.VersionMissing | handlers/modelversion.go:108-112 | with no key line, the scanner's error when the scan failed, otherwise "unable to find program version in file" plus the path |
| Handlers.AppendVersionEntries | handlers/modelversion.go:123-137 | the loop appends "<ext>: <version>, " for each plan, geometry or flow file whose version can be pulled, in order |
| Handlers.GetVersions | handlers/modelversion.go:115-144 | getVersions gives the entries joined by ", ", or modFiles' error |
| Handlers.VersionsOfModel | handlers/modelversion.go:115-144 | getVersions fails exactly when modFiles does, with its error; a file gets an entry exactly when it is versioned and its version can be pulled |
| Handlers.VersionEntriesInOrder | handlers/modelversion.go:123-137 | the entries follow the file-list order |
| Handlers.FindGeometryExists | handlers/isamodel.go:61-67 | the intended search is true exactly when some listed file's extension starts with ".g" |
| Handlers.IsAModelChecks | handlers/isamodel.go:42-68 | isAModel is true exactly when the definition file is ".prj", readable, titled "Proj Title=", listable, and some listed file has a ".g" extension |
| Handlers.AsWrittenSearch | handlers/isamodel.go:61-67 | the search as written panics exactly when a file with an extension of fewer than two characters precedes every ".g" file; otherwise it agrees with the intended search |
| Handlers.ShortExtensionPanics | handlers/isamodel.go:61-67 | a bundle whose directory "m/" lists "m/a." and "m/a.g01" beside "m/a.prj" is a model, yet isAModel as written panics on the extension "." |
| Handlers.AllVersionsPass | handlers/isgeospatial.go:51-66 | the check is true exactly when every piece passes: not a geometry entry, or a version of at least 4 |
| Handlers.FirstFailingVersion | handlers/isgeospatial.go:51-62 | the first piece that fails decides: false when it holds ':', a panic on the missing field when it does not |
| Handlers.GeospatialWithoutVersions | handlers/isgeospatial.go:46-49 | isGeospatial is false when getVersions fails, and true for a model with no versions |
| BucketListing.GetListWithDetail | tools/list_adapter.go:11-53 | the listing uses the delimiter exactly when it is not recursive; its error is returned; otherwise the rows |
| BucketListing.AppendDirRows | tools/list_adapter.go:25-35 | one directory row per common prefix, numbered from 0 |
| BucketListing.AppendObjectRows | tools/list_adapter.go:37-50 | a row per object whose key is not the prefix, numbered on from the rows so far |
| BucketListing.ObjectsBelowMembers | tools/list_adapter.go:38 | an object is listed exactly when it is in the listing and its key is not the prefix |
| BucketListing.ObjectsBelowInOrder | tools/list_adapter.go:37-50 | the object rows follow the listing order |
| BucketListing.RowsDescribeListing | tools/list_adapter.go:22-52 | rows are numbered 0..n-1; directories come first and only when not recursive, with name and path; objects carry name, size, directory, extension and time |
| BucketListing.ListingFails | tools/list_adapter.go:17-20 | the listing fails exactly when the store cannot list the prefix with the chosen delimiter |
| Forcing.ForcingData.constructor | tools/forcing.go:13-17 | new forcing data has three empty maps |
| Forcing.ErrorChannel.Send | tools/forcing.go:42 | a send appends one value to the values sent |
| Forcing.GetForcingData | tools/forcing.go:29-43 | the forcing data becomes that of the extension dispatch, and exactly one value, that file's error or none, is sent |
| Forcing.SteadyFlowFile | tools/forcing.go:33-34 | a ".f" file goes to the steady parser, which changes only the steady map and whose error is sent |
| Forcing.UnsteadyFlowFile | tools/forcing.go:35-36 | a ".u" file goes to the unsteady parser, which changes only the unsteady map and whose error is sent |
| Forcing.UnparsedFlowFile | tools/forcing.go:37-42 | a ".q" file maps its name to "Not Implemented", keeps every other entry and sends no error; any other file changes nothing |
| ObjectStore.GetObject | tools/model.go:251-255 | fetching succeeds exactly for a stored key, and gives that object |
| ObjectStore.GetList | handlers/modelversion.go:58-61 | listing succeeds exactly for a stored query, and gives that listing |
| ObjectStore.GetDir | tools/model.go:234-237 | a directory read succeeds exactly for a stored prefix, and gives its entries |
| LineScanner.Scanner.Scan | tools/geom.go:96-97 | Scan advances one line and gives it as the text, or returns false at the end with an empty text |

## Left out

- Geospatial extraction: the GDAL code (tools/geom.go:514-762), reprojection and the
  vector layers. `GeospatialData` takes the per-file extraction and the unit-consistency rule as
  parameters, and features are text.
- Interpolation (distance, pointAtDistance, interpXY, attributeZ at tools/geom.go:454-512):
  these are floating-point geometry for the layers above. Two of their behaviours
  therefore stay unmodelled:
  - interpXY returns the zero point past the end of the line;
  - attributeZ drops a point when one of its coordinates is 0 (line 507).
- Floating point: numbers are exact reals parsed from decimal syntax.
  - ParseFloat does not accept inf, nan, hexadecimal floats or underscores.
  - It does not round to float64. Values too small for a float64 are accepted, as
    ParseFloat accepts them; values of magnitude 2^1024 - 2^970 or more are its range
    error.
  - numberofLines is the exact ceiling of the row count, not one computed in floats.
- Numbers.Quote, Numbers.QuoteChar and Numbers.QuotePlain: they escape the quote, the
  backslash and the ASCII control characters as strconv.Quote does, but write every
  character beyond ASCII as itself. Go also escapes the non-printable ones among those,
  and bytes that are not valid UTF-8, so error texts holding them differ.
- GeomReaders.ValueAtSlice and GeomReaders.FieldAtSlice: offsets and widths count
  characters where Go counts bytes, so field boundaries are exact for ASCII rows only.
  The same holds for GeomReaders.AppendRowValues, GeomReaders.RowPairs and
  GeomReaders.AppendRowPairs, which use them.
- PlanFile.PlanData: the SHA-256 digest of a plan file is a parameter, because
  hashing is not modelled.
- Concurrency: NewRasModel runs its workers one after the other in file-list order.
  - As a result, the unsynchronised appends to the shared metadata, and any data race
    between workers, are not modelled.
  - The first error in that order is the one reported.
  - The goroutines, wait groups and mutex are left out.
  - RasModels.AsWrittenFinish: a worker's panic is an outcome of its own, `Crashes`,
    with no message, because which panic ends the process first depends on scheduling.
- RasModels.NewRasModel: its workers read through a `Readers` parameter. The contract
  ties the result to the assembly with those readers. `ReadersOf` gives NewRasModel's own
  readers, and RasModels.AssembledModel states the properties for them.
- Code outside the core is modelled as values passed in (the `Collaborators` of
  RasModels):
  - verifyPrjPath, getPrjData, getFlowData, checkUnitConsistency and GetGeospatialData;
  - the steady and unsteady flow parsers of the forcing data;
  - GDAL's validation of a spatial-reference text.
- The object store is a value, which loses the following:
  - network errors are a missing key;
  - `ReadFirstLine` is the first line of the object;
  - a scan error is a flag on the content;
  - an object's modification time is an integer stamp.
- HTTP: the echo handlers, their JSON bodies and status codes, and the database glue
  are left out.
- The forcing-data handler in handlers/forcingdata.go:60-63 creates no QuasiUnsteady
  map, so a ".q" file would write to a nil map. Forcing.ForcingData.constructor
  starts with three empty maps instead.
- Forcing.GetForcingData: requires an extension of two characters or more instead of
  modelling the panic of `Ext(path)[0:2]`. Its callers pass only files that match the
  flow pattern, whose extensions are at least four characters long.
- The isAModel and isGeospatial handlers: their panics are modelled as `Panic`
  failures rather than requirements, because their inputs are listing contents and
  stored text.
- BucketListing.GetListWithDetail: an empty result is the empty sequence, where the
  code returns a pointer to a nil slice.
- RasModels.RasModel.Index: the output and supplemental lists are always empty, as in
  the code. The `interface{}` data maps are string maps.
- RasModels.RasModel.IsGeospatial requires a geometry record, where the code panics
  on an empty list.
- Patterns: the regular expressions are sequences of character classes matched anywhere
  in the text, which is what the eleven unanchored patterns of tools/model.go:29-41
  need. Patterns that are plain text, such as the "=" and "BEGIN DESCRIPTION" of the
  plan reader, are `Contains`.
- GeomReaders.GetDescription: contains the end marker instead of matching it as a
  regular expression. This is the same for the two markers its callers pass, which
  hold no metacharacter.
- Program versions: isGeospatial's float comparison is made on exact reals.

## Findings

| source | as written | input that shows it | evidently intended | confidence | as-written member | corrected member |
|---|---|---|---|---|---|---|
| tools/model.go:296-334 | the error channel has no buffer, so a worker that sends an error blocks, the wait for the workers never ends, and `len(errChan) > 0` never holds | a bundle whose listing names a geometry file that cannot be fetched, no worker panicking | NewRasModel returns the first worker error | not executed | RasModels.UnreadableGeometryBlocks | RasModels.NewRasModel |
| handlers/isamodel.go:61-67 | `filepath.Ext(f)[0:2]` panics on a file with an extension of fewer than two characters that comes before the geometry file | a bundle with "m/a.prj" (first line "Proj Title=a") whose listing of "m/" holds the objects "m/a." and "m/a.g01" | the file is skipped and isAModel finds the geometry file | not executed | Handlers.ShortExtensionPanics | Handlers.IsAModelChecks |
