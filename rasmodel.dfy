/** The model assembler (NewRasModel and the RasModel methods), run sequentially: the
    first-match extension dispatch, one worker per dispatched file, the projection rule,
    the aggregate version string, the public summary and the guard in front of the
    geospatial extraction. */
module RasModels {
  import opened Wrappers
  import opened GoStrings
  import opened Numbers
  import opened ObjectStore
  import opened Patterns
  import opened PlanFile
  import opened GeomFile

  const NotValidMsg := "model is not valid"
  const MultipleProjectionsMsg := "Multiple projection files identified, cannot determine coordinate reference system"
  const NoReferenceMsg := "Cannot extract geospatial data, no valid coordinate reference system"
  const VersionSep := ", "

  /** The fields of a flow-file record the assembler reads. */
  datatype FlowFileContents = FlowFileContents(path: string, fileExt: string, flowTitle: string, programVersion: string)

  /** The header fields of the project file the assembler reads. */
  datatype ProjFileContents = ProjFileContents(units: string)

  datatype ProjectMetadata = ProjectMetadata(
    projFilePath: string,
    projFileContents: ProjFileContents,
    projection: string,
    planFiles: seq<PlanFileContents>,
    geomFiles: seq<GeomFileContents>,
    flowFiles: seq<FlowFileContents>)

  const NoMetadata := ProjectMetadata("", ProjFileContents(""), "", [], [], [])

  /** The collaborators of the assembler whose code is not part of this model, as the
      values they produce: the project file a key names (verifyPrjPath), the project
      header (getPrjData), a flow-file record (getFlowData), a plan file's SHA-256 digest
      and GDAL's validation of a spatial-reference text. */
  datatype Collaborators = Collaborators(
    verifyPrjPath: string -> Result<string>,
    prjData: string -> Result<ProjFileContents>,
    flowData: string -> Result<FlowFileContents>,
    digest: string -> string,
    validReference: string -> bool)

  // ---------------------------------------------------------------------------------
  // Dispatch

  datatype Role = PlanRole | GeomRole | FlowRole | ProjectionRole | NoRole

  /** The switch of NewRasModel: the first pattern that matches the file's extension
      decides, and a projection file named like the definition file is skipped. */
  function Dispatch(key: string, fp: string): Role
  {
    var ext := Ext(fp);
    if MatchString(Plan, ext) then PlanRole
    else if MatchString(Geom, ext) then GeomRole
    else if MatchString(AllFlow, ext) then FlowRole
    else if MatchString(Projection, ext) && Base(key) != Base(fp) then ProjectionRole
    else NoRole
  }

  /** On a text as long as the pattern, the only place a match can start is 0. */
  lemma {:induction false} MatchWhole(p: Pattern, s: string)
    requires |s| == |p|
    ensures MatchString(p, s) <==> MatchesAt(p, s, 0)
  {
  }

  /** Which patterns a standard extension (a dot, a letter, two digits) matches. */
  lemma StandardExtensionMatches(ext: string, c: char, d1: char, d2: char)
    requires ext == ['.', c, d1, d2] && IsDigit(d1) && IsDigit(d2)
    ensures MatchString(Plan, ext) <==> c == 'p'
    ensures MatchString(Geom, ext) <==> c == 'g'
    ensures MatchString(AllFlow, ext) <==> c in "fqu"
    ensures !MatchString(Projection, ext)
  {
    MatchWhole(Plan, ext);
    MatchWhole(Geom, ext);
    MatchWhole(AllFlow, ext);
    MatchWhole(Projection, ext);
    assert Accepts(Plan[1], ext[1]) <==> c == 'p';
    assert Accepts(Geom[1], ext[1]) <==> c == 'g';
    assert Accepts(AllFlow[1], ext[1]) <==> c in "fqu";
    assert !Accepts(Projection[2], ext[2]);
  }

  /** A file with a standard extension is dispatched by its letter: plans, geometries
      and the three flow kinds; output, run and every other such file is ignored. */
  lemma StandardExtensionRole(key: string, fp: string, c: char, d1: char, d2: char)
    requires Ext(fp) == ['.', c, d1, d2] && IsDigit(d1) && IsDigit(d2)
    ensures Dispatch(key, fp) ==
      if c == 'p' then PlanRole
      else if c == 'g' then GeomRole
      else if c in "fqu" then FlowRole
      else NoRole
  {
    StandardExtensionMatches(Ext(fp), c, d1, d2);
  }

  /** Which patterns a `.prj` or `.pro` extension matches. */
  lemma ProjectionExtensionMatches(ext: string, last: char)
    requires ext == ['.', 'p', 'r', last] && last in "oj"
    ensures !MatchString(Plan, ext) && !MatchString(Geom, ext) && !MatchString(AllFlow, ext)
    ensures MatchString(Projection, ext)
  {
    MatchWhole(Plan, ext);
    MatchWhole(Geom, ext);
    MatchWhole(AllFlow, ext);
    MatchWhole(Projection, ext);
    assert !Accepts(Plan[2], ext[2]);
    assert !Accepts(Geom[1], ext[1]);
    assert !Accepts(AllFlow[1], ext[1]);
    assert Accepts(Projection[3], ext[3]);
  }

  /** A `.prj` or `.pro` file is a projection candidate, unless it has the definition
      file's own name. */
  lemma ProjectionExtensionRole(key: string, fp: string, last: char)
    requires Ext(fp) == ['.', 'p', 'r', last] && last in "oj"
    ensures Dispatch(key, fp) == if Base(key) != Base(fp) then ProjectionRole else NoRole
  {
    ProjectionExtensionMatches(Ext(fp), last);
  }

  /** The patterns are unanchored, so one extension can match two of them; the plan
      pattern is tried first and wins. */
  lemma PlanBeforeGeometry(key: string, fp: string)
    requires Ext(fp) == ".p01g02"
    ensures MatchString(Plan, Ext(fp)) && MatchString(Geom, Ext(fp))
    ensures Dispatch(key, fp) == PlanRole
  {
    var ext := Ext(fp);
    assert MatchesAt(Plan, ext, 0);
    assert MatchesAt(Geom, ext, 3);
  }

  // ---------------------------------------------------------------------------------
  // The workers

  /** The first line a scanner yields, "" for empty content. */
  function FirstLine(t: Text): string
  {
    if |t.lines| > 0 then t.lines[0] else ""
  }

  /** getProjection on one fetched file: an invalid reference clears the projection, a
      second valid one is an error that keeps the first, otherwise the first line is
      taken. */
  function ProjectionRule(md: ProjectMetadata, fetched: Result<Text>, valid: string -> bool): (ProjectMetadata, Option<Fault>)
  {
    match fetched
    case Failure(e) => (md, Some(e))
    case Success(t) =>
      var line := FirstLine(t);
      if !valid(line) then (md.(projection := ""), None)
      else if md.projection != "" then (md, Some(Err(MultipleProjectionsMsg)))
      else (md.(projection := line), None)
  }

  /** What the workers consult, by file: the role the dispatch gives it, the plan,
      geometry and flow readers, the object store and the reference validation. */
  datatype Readers = Readers(
    role: string -> Role,
    plan: string -> PlanFileContents,
    geom: string -> Result<GeomFileContents>,
    flow: string -> Result<FlowFileContents>,
    fetch: string -> Result<Text>,
    valid: string -> bool)

  /** The readers of NewRasModel for the key `key`. */
  function ReadersOf(store: Bucket, key: string, env: Collaborators): Readers
  {
    Readers(fp => Dispatch(key, fp), fp => PlanData(store, fp, env.digest(fp)), fp => GeomData(store, fp),
            env.flowData, fp => GetObject(store, fp), env.validReference)
  }

  /** One worker run to completion: the metadata it leaves and the error it reports. A
      plan worker always appends its record; a geometry or flow worker appends its
      record only when it succeeds. */
  function WorkerEffect(rd: Readers, md: ProjectMetadata, fp: string): (ProjectMetadata, Option<Fault>)
  {
    match rd.role(fp)
    case PlanRole => (md.(planFiles := md.planFiles + [rd.plan(fp)]), None)
    case GeomRole =>
      (match rd.geom(fp)
       case Success(g) => (md.(geomFiles := md.geomFiles + [g]), None)
       case Failure(e) => (md, Some(e)))
    case FlowRole =>
      (match rd.flow(fp)
       case Success(f) => (md.(flowFiles := md.flowFiles + [f]), None)
       case Failure(e) => (md, Some(e)))
    case ProjectionRole => ProjectionRule(md, rd.fetch(fp), rd.valid)
    case NoRole => (md, None)
  }

  /** The workers of `files`, one after the other in list order: the metadata they leave
      and the errors they report, in order. */
  function Workers(rd: Readers, md: ProjectMetadata, files: seq<string>): (ProjectMetadata, seq<Fault>)
    decreases |files|
  {
    if files == [] then (md, [])
    else
      var before := Workers(rd, md, files[..|files| - 1]);
      var after := WorkerEffect(rd, before.0, files[|files| - 1]);
      (after.0, if after.1.Some? then before.1 + [after.1.value] else before.1)
  }

  /** The plan records the workers of `files` append: one per plan file, in order. */
  function PlanRecords(rd: Readers, files: seq<string>): seq<PlanFileContents>
    decreases |files|
  {
    if files == [] then []
    else
      var fp := files[|files| - 1];
      PlanRecords(rd, files[..|files| - 1]) + if rd.role(fp) == PlanRole then [rd.plan(fp)] else []
  }

  /** Exactly one plan record per plan file, in list order, whatever happens to the
      other files. */
  lemma {:induction false} PlanRecordsAppended(rd: Readers, md: ProjectMetadata, files: seq<string>)
    ensures Workers(rd, md, files).0.planFiles == md.planFiles + PlanRecords(rd, files)
    decreases |files|
  {
    if files != [] {
      PlanRecordsAppended(rd, md, files[..|files| - 1]);
    }
  }

  /** Each record of `recs` carries its own file's extension and was read from a plan file. */
  ghost predicate PlansNamed(rd: Readers, recs: seq<PlanFileContents>)
  {
    forall k | 0 <= k < |recs| :: recs[k].fileExt == Ext(recs[k].path) && rd.role(recs[k].path) == PlanRole
  }

  /** Each plan record names a plan file and that file's extension, when the plan reader
      does. */
  lemma {:induction false} PlanRecordsNamed(rd: Readers, files: seq<string>)
    requires forall fp :: rd.plan(fp).path == fp && rd.plan(fp).fileExt == Ext(fp)
    ensures PlansNamed(rd, PlanRecords(rd, files))
    decreases |files|
  {
    if files != [] {
      var fp := files[|files| - 1];
      PlanRecordsNamed(rd, files[..|files| - 1]);
      var rest := PlanRecords(rd, files[..|files| - 1]);
      if rd.role(fp) == PlanRole {
        var recs := PlanRecords(rd, files);
        assert recs == rest + [rd.plan(fp)];
        forall k | 0 <= k < |recs|
          ensures recs[k].fileExt == Ext(recs[k].path) && rd.role(recs[k].path) == PlanRole
        {
          if k < |rest| {
            assert recs[k] == rest[k];
          } else {
            assert recs[k] == rd.plan(fp);
          }
        }
      }
    }
  }

  /** `p` is the validated first line of one of the projection files of `files`. */
  ghost predicate ValidatedIn(rd: Readers, files: seq<string>, p: string)
  {
    exists j | 0 <= j < |files| ::
      rd.role(files[j]) == ProjectionRole && rd.fetch(files[j]).Success? &&
      p == FirstLine(rd.fetch(files[j]).value) && rd.valid(p)
  }

  lemma ValidatedInGrows(rd: Readers, files: seq<string>, p: string)
    requires files != [] && ValidatedIn(rd, files[..|files| - 1], p)
    ensures ValidatedIn(rd, files, p)
  {
    var init := files[..|files| - 1];
    var j :| 0 <= j < |init| && rd.role(init[j]) == ProjectionRole && rd.fetch(init[j]).Success? &&
      p == FirstLine(rd.fetch(init[j]).value) && rd.valid(p);
    assert files[j] == init[j];
  }

  /** The resolved projection is the one the workers started from, "", or the validated
      first line of one of the projection files. */
  lemma {:induction false} ProjectionValidated(rd: Readers, md: ProjectMetadata, files: seq<string>)
    ensures var p := Workers(rd, md, files).0.projection;
      p == md.projection || p == "" || ValidatedIn(rd, files, p)
    decreases |files|
  {
    if files != [] {
      var init := files[..|files| - 1];
      var fp := files[|files| - 1];
      ProjectionValidated(rd, md, init);
      var before := Workers(rd, md, init).0;
      var p := WorkerEffect(rd, before, fp).0.projection;
      if p == before.projection {
        if p != md.projection && p != "" {
          ValidatedInGrows(rd, files, p);
        }
      } else if p != "" {
        assert files[|files| - 1] == fp;
      }
    }
  }

  /** The geometry reader records its file's extension, and only a file with a geometry
      extension (four characters at least) is given to it. */
  ghost predicate GeomExtensions(rd: Readers)
  {
    forall fp | rd.role(fp) == GeomRole :: |Ext(fp)| >= 4 && (rd.geom(fp).Success? ==> rd.geom(fp).value.fileExt == Ext(fp))
  }

  /** Every record of `gs` carries an extension of four characters or more. */
  ghost predicate LongExtensions(gs: seq<GeomFileContents>)
  {
    forall k | 0 <= k < |gs| :: |gs[k].fileExt| >= 4
  }

  /** Every geometry record the workers append carries an extension of four characters or
      more. */
  lemma {:induction false} GeomRecordsMatch(rd: Readers, md: ProjectMetadata, files: seq<string>)
    requires GeomExtensions(rd) && LongExtensions(md.geomFiles)
    ensures LongExtensions(Workers(rd, md, files).0.geomFiles)
    decreases |files|
  {
    if files != [] {
      var fp := files[|files| - 1];
      GeomRecordsMatch(rd, md, files[..|files| - 1]);
      var before := Workers(rd, md, files[..|files| - 1]).0;
      if rd.role(fp) == GeomRole && rd.geom(fp).Success? {
        var gs := Workers(rd, md, files).0.geomFiles;
        assert gs == before.geomFiles + [rd.geom(fp).value];
        forall k | 0 <= k < |gs|
          ensures |gs[k].fileExt| >= 4
        {
          if k < |before.geomFiles| {
            assert gs[k] == before.geomFiles[k];
          } else {
            assert gs[k] == rd.geom(fp).value;
          }
        }
      }
    }
  }

  /** A geometry file that cannot be read is always reported. */
  lemma {:induction false} GeomFailureReported(rd: Readers, md: ProjectMetadata, files: seq<string>, j: nat)
    requires j < |files| && rd.role(files[j]) == GeomRole && rd.geom(files[j]).Failure?
    ensures rd.geom(files[j]).error in Workers(rd, md, files).1
    decreases |files|
  {
    var init := files[..|files| - 1];
    if j < |init| {
      assert init[j] == files[j];
      GeomFailureReported(rd, md, init, j);
    }
  }

  /** The readers of NewRasModel: plan records name their files, geometry files have
      geometry extensions and their records carry them, and a geometry file missing from
      the store cannot be read. */
  lemma ReadersFacts(store: Bucket, key: string, env: Collaborators)
    ensures var rd := ReadersOf(store, key, env);
      (forall fp :: rd.role(fp) == Dispatch(key, fp)) &&
      (forall fp :: rd.plan(fp).path == fp && rd.plan(fp).fileExt == Ext(fp)) &&
      GeomExtensions(rd) &&
      (forall fp :: fp !in store.objects ==> rd.geom(fp).Failure?) &&
      (forall fp :: rd.fetch(fp) == GetObject(store, fp)) && rd.valid == env.validReference
  {
    var rd := ReadersOf(store, key, env);
    forall fp
      ensures rd.plan(fp).path == fp && rd.plan(fp).fileExt == Ext(fp)
    {
      PlanRecord(store, fp, env.digest(fp));
    }
    forall fp | rd.role(fp) == GeomRole
      ensures |Ext(fp)| >= 4 && (rd.geom(fp).Success? ==> rd.geom(fp).value.fileExt == Ext(fp))
    {
      assert MatchString(Geom, Ext(fp));
      if rd.geom(fp).Success? {
        var text := GetObject(store, fp).value;
        PathKept(store, fp, text.lines, 0, GeomFileContents(fp, Ext(fp), "", "", "", []), true);
      }
    }
  }

  // ---------------------------------------------------------------------------------
  // Version string and summary

  function PlanVersions(ps: seq<PlanFileContents>): seq<(string, string)>
  {
    seq(|ps|, k requires 0 <= k < |ps| => (ps[k].fileExt, ps[k].programVersion))
  }

  function GeomVersions(gs: seq<GeomFileContents>): seq<(string, string)>
  {
    seq(|gs|, k requires 0 <= k < |gs| => (gs[k].fileExt, gs[k].programVersion))
  }

  function FlowVersions(fs: seq<FlowFileContents>): seq<(string, string)>
  {
    seq(|fs|, k requires 0 <= k < |fs| => (fs[k].fileExt, fs[k].programVersion))
  }

  /** The (extension, version) of every record, plans first, then geometries, then flows. */
  function VersionPairs(md: ProjectMetadata): seq<(string, string)>
  {
    PlanVersions(md.planFiles) + GeomVersions(md.geomFiles) + FlowVersions(md.flowFiles)
  }

  function Entry(ext: string, ver: string): string
  {
    ext + ": " + ver
  }

  /** One entry per pair with a non-empty version, in order. */
  function Entries(pairs: seq<(string, string)>): seq<string>
    decreases |pairs|
  {
    if pairs == [] then []
    else
      var x := pairs[|pairs| - 1];
      Entries(pairs[..|pairs| - 1]) + if x.1 != "" then [Entry(x.0, x.1)] else []
  }

  /** Dropping the last two characters, when there are two. */
  function DropSeparator(s: string): string
  {
    if |s| >= 2 then s[..|s| - 2] else s
  }

  lemma EntriesSnoc(pairs: seq<(string, string)>, x: (string, string))
    ensures Entries(pairs + [x]) == Entries(pairs) + if x.1 != "" then [Entry(x.0, x.1)] else []
  {
    assert (pairs + [x])[..|pairs|] == pairs;
  }

  lemma TerminatedSnoc(parts: seq<string>, x: string, sep: string)
    ensures Terminated(parts + [x], sep) == Terminated(parts, sep) + x + sep
  {
    assert (parts + [x])[..|parts|] == parts;
  }

  /** Appending one pair to the `+=` loop adds its entry and the separator, or nothing. */
  lemma VersionStep(acc: seq<(string, string)>, x: (string, string))
    ensures Terminated(Entries(acc + [x]), VersionSep) ==
      Terminated(Entries(acc), VersionSep) + if x.1 != "" then Entry(x.0, x.1) + VersionSep else ""
  {
    EntriesSnoc(acc, x);
    if x.1 != "" {
      TerminatedSnoc(Entries(acc), Entry(x.0, x.1), VersionSep);
      assert Entries(acc + [x]) == Entries(acc) + [Entry(x.0, x.1)];
    } else {
      assert Entries(acc + [x]) == Entries(acc);
    }
  }

  lemma {:induction false} EntriesConcat(a: seq<(string, string)>, b: seq<(string, string)>)
    ensures Entries(a + b) == Entries(a) + Entries(b)
    decreases |b|
  {
    if b != [] {
      var init := b[..|b| - 1];
      assert (a + b)[..|a + b| - 1] == a + init;
      EntriesConcat(a, init);
    } else {
      assert a + b == a;
    }
  }

  lemma {:induction false} TerminatedConcat(a: seq<string>, b: seq<string>, sep: string)
    ensures Terminated(a + b, sep) == Terminated(a, sep) + Terminated(b, sep)
    decreases |b|
  {
    if b != [] {
      var init := b[..|b| - 1];
      assert (a + b)[..|a + b| - 1] == a + init;
      TerminatedConcat(a, init, sep);
    } else {
      assert a + b == a;
    }
  }

  /** The three version loops together build the terminated entries of all the pairs. */
  lemma ThreeLoops(a: seq<(string, string)>, b: seq<(string, string)>, c: seq<(string, string)>)
    ensures Terminated(Entries(a + b + c), VersionSep) ==
      Terminated(Entries(a), VersionSep) + Terminated(Entries(b), VersionSep) + Terminated(Entries(c), VersionSep)
  {
    EntriesConcat(a, b);
    EntriesConcat(a + b, c);
    TerminatedConcat(Entries(a), Entries(b), VersionSep);
    TerminatedConcat(Entries(a) + Entries(b), Entries(c), VersionSep);
  }

  /** Four texts regrouped: stated apart so that the version lemmas need not reason
      about concatenation while their entry functions are unfolded. */
  lemma Regroup(a: string, b: string, c: string, d: string)
    ensures a + b + c + d == a + (b + c + d)
  {
  }

  /** The `+=` of one entry of the version loops, regrouped as one Entry and its
      separator: stated apart to keep the loop's invariant proof small. */
  lemma AppendEntry(v: string, t: string, ext: string, ver: string)
    ensures v + t + ext + ": " + ver + VersionSep == v + (t + (Entry(ext, ver) + VersionSep))
  {
  }

  lemma {:induction false} EntriesEmpty(pairs: seq<(string, string)>)
    ensures Entries(pairs) == [] <==> forall k | 0 <= k < |pairs| :: pairs[k].1 == ""
    ensures forall k | 0 <= k < |Entries(pairs)| :: Entries(pairs)[k] != ""
    decreases |pairs|
  {
    if pairs != [] {
      var init := pairs[..|pairs| - 1];
      EntriesEmpty(init);
      assert forall k | 0 <= k < |init| :: init[k] == pairs[k];
    }
  }

  /** The version string of NewRasModel: the entries "<ext>: <version>" of the records
      with a version, plans, then geometries, then flows, joined by ", " with no trailing
      separator; "" exactly when no record has a version. */
  lemma VersionJoined(pairs: seq<(string, string)>)
    ensures DropSeparator(Terminated(Entries(pairs), VersionSep)) == JoinWith(Entries(pairs), VersionSep)
    ensures JoinWith(Entries(pairs), VersionSep) == "" <==> forall k | 0 <= k < |pairs| :: pairs[k].1 == ""
  {
    var es := Entries(pairs);
    TrimTerminated(es, VersionSep);
    EntriesEmpty(pairs);
    if |es| >= 2 {
      assert JoinWith(es, VersionSep) == JoinWith(es[..|es| - 1], VersionSep) + VersionSep + es[|es| - 1];
    } else if |es| == 1 {
      assert es[0] != "";
    }
  }

  datatype FileGroup = FileGroup(paths: seq<string>, data: map<string, string>)

  /** The public summary Index returns; the output and supplemental lists are always
      empty. */
  datatype Model = Model(
    modelType: string,
    version: string,
    definitionFile: string,
    controlFiles: FileGroup,
    forcingFiles: FileGroup,
    geometryFiles: FileGroup,
    outputPaths: seq<string>,
    supplementalPaths: seq<string>)

  /** A group lists `paths` in order and keys `key` to the last of `titles`. */
  predicate Indexes(g: FileGroup, paths: seq<string>, titles: seq<string>, key: string)
  {
    |g.paths| == |paths| && (forall k | 0 <= k < |paths| :: g.paths[k] == paths[k]) &&
    g.data == if titles == [] then map[] else map[key := titles[|titles| - 1]]
  }

  /** The geospatial result: the vector layers of each geometry file (abstracted to
      their text) and the reference they were projected to. */
  datatype GeoData = GeoData(features: map<string, seq<string>>, georeference: int)

  /** The extraction loop of GeospatialData: each geometry file in order, stopping at the
      first error. */
  function ExtractAll(gd: GeoData, gs: seq<GeomFileContents>, source: string, target: int,
                      extract: (GeoData, string, string, int) -> (GeoData, Option<Fault>)): (GeoData, Option<Fault>)
    decreases |gs|
  {
    if gs == [] then (gd, None)
    else
      var r := extract(gd, gs[0].path, source, target);
      if r.1.Some? then r else ExtractAll(r.0, gs[1..], source, target, extract)
  }

  /** The joined paths of a directory read, in order. */
  function Joined(entries: seq<DirEntry>): seq<string>
  {
    seq(|entries|, k requires 0 <= k < |entries| => PathJoin(entries[k].path, entries[k].name))
  }

  // ---------------------------------------------------------------------------------
  // Assembly

  datatype Assembled = Assembled(fileList: seq<string>, metadata: ProjectMetadata, version: string)

  /** What NewRasModel has before its workers start: the file list and the metadata
      with the project file's path and header, or the error that stopped it. */
  function Prepared(key: string, store: Bucket, env: Collaborators): Result<(seq<string>, ProjectMetadata)>
  {
    match env.verifyPrjPath(key)
    case Failure(e) => Failure(e)
    case Success(prj) =>
      match GetDir(store, Dir(prj) + "/")
      case Failure(e) => Failure(e)
      case Success(entries) =>
        match env.prjData(prj)
        case Failure(e) => Failure(e)
        case Success(contents) =>
          Success((Joined(entries), NoMetadata.(projFilePath := prj, projFileContents := contents)))
  }

  /** The end of NewRasModel once its file list `p.0` and metadata `p.1` are prepared,
      with its evident intent: the first worker error, or a valid model with its
      version. */
  function Finish(rd: Readers, p: (seq<string>, ProjectMetadata)): Result<Assembled>
  {
    var w := Workers(rd, p.1, p.0);
    if w.1 != [] then Failure(w.1[0])
    else Success(Assembled(p.0, w.0, DropSeparator(Terminated(Entries(VersionPairs(w.0)), VersionSep))))
  }

  /** NewRasModel with its evident intent, its workers reading through `rd`: a valid
      model with its version, or the first error, the first worker error included. */
  function AssemblyBy(rd: Readers, key: string, store: Bucket, env: Collaborators): Result<Assembled>
  {
    match Prepared(key, store, env)
    case Failure(e) => Failure(e)
    case Success(p) => Finish(rd, p)
  }

  /** NewRasModel with its evident intent and the readers of this model. */
  function Assembly(key: string, store: Bucket, env: Collaborators): Result<Assembled>
  {
    AssemblyBy(ReadersOf(store, key, env), key, store, env)
  }

  /** The projection reader `rd` fetches from `store`. */
  ghost predicate FetchesFrom(rd: Readers, store: Bucket)
  {
    forall fp :: rd.fetch(fp) == GetObject(store, fp)
  }

  /** How a call of NewRasModel as written ends: it returns, it never returns, or a
      worker's panic ends the whole process. */
  datatype Outcome = Returns(result: Result<Assembled>) | Blocks | Crashes

  /** Some of the faults is a panic. */
  predicate SomePanic(faults: seq<Fault>)
  {
    exists k | 0 <= k < |faults| :: faults[k].Panic?
  }

  /** The end of NewRasModel as written. A worker runs in a goroutine of its own that
      nothing recovers, so a worker that panics ends the process, whatever the others
      do. Otherwise the error channel has no buffer, so a worker that reports an error
      waits forever for a receiver, the wait for the workers never ends, and the check
      of the channel's length (always 0) is never reached. */
  function AsWrittenFinish(rd: Readers, p: (seq<string>, ProjectMetadata)): Outcome
  {
    var w := Workers(rd, p.1, p.0);
    if SomePanic(w.1) then Crashes
    else if w.1 != [] then Blocks
    else Returns(Success(Assembled(p.0, w.0, DropSeparator(Terminated(Entries(VersionPairs(w.0)), VersionSep)))))
  }

  /** NewRasModel as written. */
  function AsWrittenAssembly(key: string, store: Bucket, env: Collaborators): Outcome
  {
    match Prepared(key, store, env)
    case Failure(e) => Returns(Failure(e))
    case Success(p) => AsWrittenFinish(ReadersOf(store, key, env), p)
  }

  /** A geometry file that cannot be read stops both ends of the assembly: the one as
      written never returns, hanging when every worker fault is an error and crashing
      when this file's fault is a panic; the intended one fails. */
  lemma FailedWorkerStops(rd: Readers, p: (seq<string>, ProjectMetadata), j: nat)
    requires j < |p.0| && rd.role(p.0[j]) == GeomRole && rd.geom(p.0[j]).Failure?
    ensures !AsWrittenFinish(rd, p).Returns? && Finish(rd, p).Failure?
    ensures rd.geom(p.0[j]).error.Panic? ==> AsWrittenFinish(rd, p) == Crashes
    ensures (forall f | f in Workers(rd, p.1, p.0).1 :: f.Err?) ==> AsWrittenFinish(rd, p) == Blocks
  {
    GeomFailureReported(rd, p.1, p.0, j);
    var w := Workers(rd, p.1, p.0).1;
    if forall f | f in w :: f.Err? {
      forall k | 0 <= k < |w|
        ensures !w[k].Panic?
      {
        assert w[k] in w;
      }
    }
  }

  /** A geometry file in the model's directory that cannot be read makes NewRasModel as
      written hang, or crash when a worker panics, where the intended assembly reports
      an error. */
  lemma UnreadableGeometryBlocks(key: string, store: Bucket, env: Collaborators, j: nat)
    requires Prepared(key, store, env).Success?
    requires var files := Prepared(key, store, env).value.0;
      j < |files| && Dispatch(key, files[j]) == GeomRole && files[j] !in store.objects
    ensures !AsWrittenAssembly(key, store, env).Returns?
    ensures var p := Prepared(key, store, env).value;
      (forall f | f in Workers(ReadersOf(store, key, env), p.1, p.0).1 :: f.Err?) ==>
        AsWrittenAssembly(key, store, env) == Blocks
    ensures Assembly(key, store, env).Failure?
  {
    var p := Prepared(key, store, env).value;
    ReadersFacts(store, key, env);
    FailedWorkerStops(ReadersOf(store, key, env), p, j);
  }

  /** The as-written assembly crashes exactly when a worker panics, hangs exactly when
      the workers report faults that are all errors, and otherwise returns what the
      intended one does. */
  lemma AsWrittenAgrees(key: string, store: Bucket, env: Collaborators)
    ensures AsWrittenAssembly(key, store, env) == Crashes <==>
      Prepared(key, store, env).Success? &&
      (var p := Prepared(key, store, env).value; var w := Workers(ReadersOf(store, key, env), p.1, p.0).1;
       exists k | 0 <= k < |w| :: w[k].Panic?)
    ensures AsWrittenAssembly(key, store, env) == Blocks <==>
      Prepared(key, store, env).Success? &&
      (var p := Prepared(key, store, env).value; var w := Workers(ReadersOf(store, key, env), p.1, p.0).1;
       w != [] && forall k | 0 <= k < |w| :: w[k].Err?)
    ensures AsWrittenAssembly(key, store, env).Returns? ==>
      AsWrittenAssembly(key, store, env) == Returns(Assembly(key, store, env))
  {
  }

  /** What the workers leave from prepared metadata with no records and no projection,
      when the plan reader names its file and the geometry reader keeps its extension. */
  lemma FinishedModel(rd: Readers, p: (seq<string>, ProjectMetadata))
    requires Finish(rd, p).Success?
    requires p.1.planFiles == [] && p.1.geomFiles == [] && p.1.projection == ""
    requires forall fp :: rd.plan(fp).path == fp && rd.plan(fp).fileExt == Ext(fp)
    requires GeomExtensions(rd)
    ensures var a := Finish(rd, p).value; var md := a.metadata;
      md.planFiles == PlanRecords(rd, a.fileList) && PlansNamed(rd, md.planFiles) &&
      LongExtensions(md.geomFiles) &&
      (md.projection == "" || ValidatedIn(rd, a.fileList, md.projection)) &&
      a.version == JoinWith(Entries(VersionPairs(md)), VersionSep)
  {
    PlanRecordsAppended(rd, p.1, p.0);
    PlanRecordsNamed(rd, p.0);
    GeomRecordsMatch(rd, p.1, p.0);
    ProjectionValidated(rd, p.1, p.0);
    VersionJoined(VersionPairs(Workers(rd, p.1, p.0).0));
  }

  /** A valid model's records are those of its workers: one plan record per plan file,
      in order, each naming a file the dispatch gives to the plan reader and that file's
      extension; geometry records whose extensions have four characters or more; a
      projection that is "" or the validated first line of a projection file; and the
      version joined from the records. */
  lemma AssembledModel(key: string, store: Bucket, env: Collaborators)
    requires Assembly(key, store, env).Success?
    ensures var a := Assembly(key, store, env).value; var md := a.metadata; var rd := ReadersOf(store, key, env);
      md.planFiles == PlanRecords(rd, a.fileList) && PlansNamed(rd, md.planFiles) &&
      LongExtensions(md.geomFiles) &&
      (md.projection == "" || ValidatedIn(rd, a.fileList, md.projection)) &&
      a.version == JoinWith(Entries(VersionPairs(md)), VersionSep)
  {
    var p := Prepared(key, store, env).value;
    var rd := ReadersOf(store, key, env);
    ReadersFacts(store, key, env);
    FinishedModel(rd, p);
  }

  class RasModel {
    const store: Bucket
    var modelDirectory: string
    var version: string
    var modelType: string
    var metadata: ProjectMetadata
    var isModel: bool
    var fileList: seq<string>

    constructor (key: string, store: Bucket)
      ensures this.store == store && modelDirectory == Dir(key) && modelType == "RAS"
      ensures version == "" && metadata == NoMetadata && !isModel && fileList == []
    {
      this.store := store;
      modelDirectory := Dir(key);
      version := "";
      modelType := "RAS";
      metadata := NoMetadata;
      isModel := false;
      fileList := [];
    }

    function IsAModel(): bool
      reads this
    {
      isModel
    }

    /** IsGeospatial: the first geometry record has an extension. */
    function IsGeospatial(): bool
      reads this
      requires |metadata.geomFiles| > 0
    {
      metadata.geomFiles[0].fileExt != ""
    }

    /** Index: the public summary of a valid model. Each group lists its records' paths in
        order and keys the last record's title. */
    method Index() returns (r: Result<Model>)
      ensures !IsAModel() ==> r == Failure(Err(NotValidMsg))
      ensures IsAModel() ==> (r.Success? &&
        r.value.modelType == modelType && r.value.version == version &&
        r.value.definitionFile == metadata.projFilePath &&
        r.value.outputPaths == [] && r.value.supplementalPaths == [])
      ensures IsAModel() ==> var ps := metadata.planFiles;
        Indexes(r.value.controlFiles,
                seq(|ps|, k requires 0 <= k < |ps| => ps[k].path),
                seq(|ps|, k requires 0 <= k < |ps| => ps[k].planTitle), "PlanTitle")
      ensures IsAModel() ==> var gs := metadata.geomFiles;
        Indexes(r.value.geometryFiles,
                seq(|gs|, k requires 0 <= k < |gs| => gs[k].path),
                seq(|gs|, k requires 0 <= k < |gs| => gs[k].geomTitle), "GeomTitle")
      ensures IsAModel() ==> var fs := metadata.flowFiles;
        Indexes(r.value.forcingFiles,
                seq(|fs|, k requires 0 <= k < |fs| => fs[k].path),
                seq(|fs|, k requires 0 <= k < |fs| => fs[k].flowTitle), "FlowTitle")
    {
      if !IsAModel() {
        return Failure(Err(NotValidMsg));
      }
      var ps, gs, fs := metadata.planFiles, metadata.geomFiles, metadata.flowFiles;
      var control := FileGroup([], map[]);
      for i := 0 to |ps|
        invariant |control.paths| == i && forall k | 0 <= k < i :: control.paths[k] == ps[k].path
        invariant control.data == if i == 0 then map[] else map["PlanTitle" := ps[i - 1].planTitle]
      {
        control := FileGroup(control.paths + [ps[i].path], control.data["PlanTitle" := ps[i].planTitle]);
      }
      var geometry := FileGroup([], map[]);
      for i := 0 to |gs|
        invariant |geometry.paths| == i && forall k | 0 <= k < i :: geometry.paths[k] == gs[k].path
        invariant geometry.data == if i == 0 then map[] else map["GeomTitle" := gs[i - 1].geomTitle]
      {
        geometry := FileGroup(geometry.paths + [gs[i].path], geometry.data["GeomTitle" := gs[i].geomTitle]);
      }
      var forcing := FileGroup([], map[]);
      for i := 0 to |fs|
        invariant |forcing.paths| == i && forall k | 0 <= k < i :: forcing.paths[k] == fs[k].path
        invariant forcing.data == if i == 0 then map[] else map["FlowTitle" := fs[i - 1].flowTitle]
      {
        forcing := FileGroup(forcing.paths + [fs[i].path], forcing.data["FlowTitle" := fs[i].flowTitle]);
      }
      r := Success(Model(modelType, version, metadata.projFilePath, control, forcing, geometry, [], []));
    }

    /** GeospatialData: no coordinate reference system means an error before any geometry
        file is looked at; a unit mismatch is the next error; then each geometry file is
        extracted in order until one fails. */
    method GeospatialData(destination: int, unitCheck: (string, string) -> Option<Fault>,
                          extract: (GeoData, string, string, int) -> (GeoData, Option<Fault>))
      returns (gd: GeoData, err: Option<Fault>)
      ensures metadata.projection == "" ==> gd == GeoData(map[], 0) && err == Some(Err(NoReferenceMsg))
      ensures metadata.projection != "" && unitCheck(metadata.projFileContents.units, metadata.projection).Some? ==>
        gd == GeoData(map[], 0) && err == unitCheck(metadata.projFileContents.units, metadata.projection)
      ensures metadata.projection != "" && unitCheck(metadata.projFileContents.units, metadata.projection).None? ==>
        (gd, err) == ExtractAll(GeoData(map[], destination), metadata.geomFiles, metadata.projection, destination, extract)
    {
      gd := GeoData(map[], 0);
      var source := metadata.projection;
      if source == "" {
        return gd, Some(Err(NoReferenceMsg));
      }
      err := unitCheck(metadata.projFileContents.units, source);
      if err.Some? {
        return;
      }
      gd := GeoData(map[], destination);
      var gs := metadata.geomFiles;
      for i := 0 to |gs|
        invariant ExtractAll(GeoData(map[], destination), gs, source, destination, extract) ==
          ExtractAll(gd, gs[i..], source, destination, extract)
      {
        assert gs[i..][1..] == gs[i + 1..];
        var step := extract(gd, gs[i].path, source, destination);
        gd := step.0;
        if step.1.Some? {
          return gd, step.1;
        }
      }
      err := None;
    }

    /** getModelFiles: the joined path of every entry of the project file's directory is
        appended to the file list. */
    method GetModelFiles() returns (err: Option<Fault>)
      modifies this
      ensures metadata == old(metadata) && version == old(version) && isModel == old(isModel)
      ensures modelDirectory == old(modelDirectory) && modelType == old(modelType)
      ensures var dir := GetDir(store, Dir(metadata.projFilePath) + "/");
        if dir.Failure? then err == Some(dir.error) && fileList == old(fileList)
        else err == None && fileList == old(fileList) + Joined(dir.value)
    {
      var dir := GetDir(store, Dir(metadata.projFilePath) + "/");
      if dir.Failure? {
        return Some(dir.error);
      }
      var entries := dir.value;
      for i := 0 to |entries|
        invariant metadata == old(metadata) && version == old(version) && isModel == old(isModel)
        invariant modelDirectory == old(modelDirectory) && modelType == old(modelType)
        invariant fileList == old(fileList) + Joined(entries)[..i]
      {
        assert Joined(entries)[..i + 1] == Joined(entries)[..i] + [PathJoin(entries[i].path, entries[i].name)];
        fileList := fileList + [PathJoin(entries[i].path, entries[i].name)];
      }
      assert Joined(entries)[..|entries|] == Joined(entries);
      err := None;
    }

    /** getProjection on the file `fn`. */
    method GetProjection(fn: string, valid: string -> bool) returns (err: Option<Fault>)
      modifies this
      ensures (metadata, err) == ProjectionRule(old(metadata), GetObject(store, fn), valid)
      ensures fileList == old(fileList) && version == old(version) && isModel == old(isModel)
      ensures modelDirectory == old(modelDirectory) && modelType == old(modelType)
    {
      var f := GetObject(store, fn);
      if f.Failure? {
        return Some(f.error);
      }
      var sc := new LineScanner.Scanner(f.value.lines);
      var _ := sc.Scan();
      var line := sc.text;
      if !valid(line) {
        metadata := metadata.(projection := "");
        return None;
      }
      if metadata.projection != "" {
        return Some(Err(MultipleProjectionsMsg));
      }
      metadata := metadata.(projection := line);
      err := None;
    }

    /** One worker of the assembly loop, chosen by the role `rd` gives the file. */
    method RunWorker(rd: Readers, fp: string) returns (err: Option<Fault>)
      requires rd.fetch(fp) == GetObject(store, fp)
      modifies this
      ensures (metadata, err) == WorkerEffect(rd, old(metadata), fp)
      ensures fileList == old(fileList) && version == old(version) && isModel == old(isModel)
      ensures modelDirectory == old(modelDirectory) && modelType == old(modelType)
    {
      err := None;
      match rd.role(fp)
      case PlanRole =>
        metadata := metadata.(planFiles := metadata.planFiles + [rd.plan(fp)]);
      case GeomRole =>
        var g := rd.geom(fp);
        if g.Failure? {
          err := Some(g.error);
        } else {
          metadata := metadata.(geomFiles := metadata.geomFiles + [g.value]);
        }
      case FlowRole =>
        var f := rd.flow(fp);
        if f.Failure? {
          err := Some(f.error);
        } else {
          metadata := metadata.(flowFiles := metadata.flowFiles + [f.value]);
        }
      case ProjectionRole =>
        err := GetProjection(fp, rd.valid);
      case NoRole =>
    }

    /** The steps of NewRasModel before its workers: the project file the key names,
        the file list of its directory and its header, stopping at the first error. */
    method Prepare(key: string, env: Collaborators) returns (err: Option<Fault>)
      requires fileList == [] && metadata == NoMetadata
      modifies this
      ensures Prepared(key, store, env) == if err.Some? then Failure(err.value) else Success((fileList, metadata))
      ensures version == old(version) && isModel == old(isModel)
      ensures modelDirectory == old(modelDirectory) && modelType == old(modelType)
    {
      var prj := env.verifyPrjPath(key);
      if prj.Failure? {
        return Some(prj.error);
      }
      metadata := metadata.(projFilePath := prj.value);
      err := GetModelFiles();
      if err.Some? {
        return;
      }
      var contents := env.prjData(metadata.projFilePath);
      if contents.Failure? {
        return Some(contents.error);
      }
      metadata := metadata.(projFileContents := contents.value);
      assert metadata == NoMetadata.(projFilePath := prj.value, projFileContents := contents.value);
      assert fileList == Joined(GetDir(store, Dir(prj.value) + "/").value);
    }

    /** The steps of NewRasModel from its workers on: the first worker error, or the
        records of all the workers and the aggregate version. */
    method Complete(rd: Readers) returns (err: Option<Fault>)
      requires version == "" && FetchesFrom(rd, store)
      modifies this
      ensures Finish(rd, (old(fileList), old(metadata))) ==
        if err.Some? then Failure(err.value) else Success(Assembled(fileList, metadata, version))
      ensures fileList == old(fileList) && isModel == old(isModel)
      ensures modelDirectory == old(modelDirectory) && modelType == old(modelType)
    {
      var failures := RunWorkers(rd);
      if failures != [] {
        return Some(failures[0]);
      }
      AggregateVersion();
      ghost var t := Terminated(Entries(VersionPairs(metadata)), VersionSep);
      assert "" + t == t;
      err := None;
    }

    /** The workers of the file list, one after the other. */
    method RunWorkers(rd: Readers) returns (failures: seq<Fault>)
      requires FetchesFrom(rd, store)
      modifies this
      ensures (metadata, failures) == Workers(rd, old(metadata), fileList)
      ensures fileList == old(fileList) && version == old(version) && isModel == old(isModel)
      ensures modelDirectory == old(modelDirectory) && modelType == old(modelType)
    {
      failures := [];
      var files := fileList;
      for i := 0 to |files|
        invariant fileList == files && version == old(version) && isModel == old(isModel)
        invariant modelDirectory == old(modelDirectory) && modelType == old(modelType)
        invariant (metadata, failures) == Workers(rd, old(metadata), files[..i])
      {
        assert files[..i + 1][..i] == files[..i];
        var e := RunWorker(rd, files[i]);
        if e.Some? {
          failures := failures + [e.value];
        }
      }
      assert files[..|files|] == files;
    }

    /** The version loops of NewRasModel: "<ext>: <version>, " for each record with a
        version, plans, geometries, flows, then the last two characters dropped. */
    method AggregateVersion()
      modifies this
      ensures version == DropSeparator(old(version) + Terminated(Entries(VersionPairs(metadata)), VersionSep))
      ensures metadata == old(metadata) && fileList == old(fileList) && isModel == old(isModel)
      ensures modelDirectory == old(modelDirectory) && modelType == old(modelType)
    {
      var plans, geoms, flows := PlanVersions(metadata.planFiles), GeomVersions(metadata.geomFiles), FlowVersions(metadata.flowFiles);
      var v0 := version;
      var v1 := AppendVersions(v0, plans);
      var v2 := AppendVersions(v1, geoms);
      var v3 := AppendVersions(v2, flows);
      ghost var all := Terminated(Entries(VersionPairs(metadata)), VersionSep);
      ThreeLoops(plans, geoms, flows);
      Regroup(v0, Terminated(Entries(plans), VersionSep), Terminated(Entries(geoms), VersionSep), Terminated(Entries(flows), VersionSep));
      assert v3 == v0 + all;
      version := DropSeparator(v3);
    }
  }

  /** One version loop: "<ext>: <version>, " appended for each pair with a version. */
  method AppendVersions(v: string, pairs: seq<(string, string)>) returns (w: string)
    ensures w == v + Terminated(Entries(pairs), VersionSep)
  {
    w := v;
    for i := 0 to |pairs|
      invariant w == v + Terminated(Entries(pairs[..i]), VersionSep)
    {
      var ext, ver := pairs[i].0, pairs[i].1;
      assert pairs[..i + 1] == pairs[..i] + [pairs[i]];
      VersionStep(pairs[..i], pairs[i]);
      if ver != "" {
        AppendEntry(v, Terminated(Entries(pairs[..i]), VersionSep), ext, ver);
        w := w + ext + ": " + ver + VersionSep;
      }
    }
    assert pairs[..|pairs|] == pairs;
  }

  /** NewRasModel, sequentially and with its evident intent: the first error stops the
      assembly and leaves the model invalid; otherwise the model is valid and holds the
      file list, the workers' records and the aggregate version. The workers read
      through `rd`; with the readers of this model, `ReadersOf(store, key, env)`, the
      result is that of `Assembly`. */
  method NewRasModel(key: string, store: Bucket, env: Collaborators, rd: Readers) returns (rm: RasModel, err: Option<Fault>)
    requires FetchesFrom(rd, store)
    ensures fresh(rm) && rm.store == store && rm.modelDirectory == Dir(key) && rm.modelType == "RAS"
    ensures rm.isModel <==> err.None?
    ensures AssemblyBy(rd, key, store, env) ==
      if err.Some? then Failure(err.value) else Success(Assembled(rm.fileList, rm.metadata, rm.version))
  {
    rm := new RasModel(key, store);
    err := rm.Prepare(key, env);
    if err.None? {
      err := rm.Complete(rd);
      rm.isModel := err.None?;
    }
  }
}
