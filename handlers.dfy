/** The checks the HTTP handlers make on a RAS bundle: the file list of a model
    (modFiles), the program version of one file (pullVersion), the versions of a model
    (getVersions), whether a key names a RAS model (isAModel) and whether its geometry
    carries geospatial data (isGeospatial). */
module Handlers {
  import opened Wrappers
  import opened GoStrings
  import opened Numbers
  import opened ObjectStore
  import opened Patterns
  import opened LineScanner
  import RasModels

  // ---------------------------------------------------------------------------------
  // Selection in order

  /** The names of the elements of `xs` that `keep` accepts, in order. */
  function Selected<T>(xs: seq<T>, keep: T -> bool, name: T -> string): seq<string>
    decreases |xs|
  {
    if xs == [] then []
    else
      var x := xs[|xs| - 1];
      Selected(xs[..|xs| - 1], keep, name) + if keep(x) then [name(x)] else []
  }

  lemma SelectedSnoc<T>(xs: seq<T>, x: T, keep: T -> bool, name: T -> string)
    ensures Selected(xs + [x], keep, name) == Selected(xs, keep, name) + if keep(x) then [name(x)] else []
  {
    assert (xs + [x])[..|xs|] == xs;
  }

  lemma SelectedPrefix<T>(xs: seq<T>, i: nat, keep: T -> bool, name: T -> string)
    requires i < |xs|
    ensures Selected(xs[..i + 1], keep, name) == Selected(xs[..i], keep, name) + if keep(xs[i]) then [name(xs[i])] else []
  {
    assert xs[..i + 1][..i] == xs[..i];
  }

  /** Selection keeps the input order: selecting from a concatenation concatenates the
      selections. */
  lemma {:induction false} SelectedConcat<T>(a: seq<T>, b: seq<T>, keep: T -> bool, name: T -> string)
    ensures Selected(a + b, keep, name) == Selected(a, keep, name) + Selected(b, keep, name)
    decreases |b|
  {
    if b == [] {
      assert a + b == a;
    } else {
      var init := b[..|b| - 1];
      assert (a + b)[..|a + b| - 1] == a + init;
      SelectedConcat(a, init, keep, name);
    }
  }

  /** A name is selected exactly when it is the name of an accepted element. */
  lemma {:induction false} SelectedMembers<T>(xs: seq<T>, keep: T -> bool, name: T -> string, s: string)
    ensures s in Selected(xs, keep, name) <==> exists k | 0 <= k < |xs| :: keep(xs[k]) && s == name(xs[k])
    decreases |xs|
  {
    if xs != [] {
      var init := xs[..|xs| - 1];
      SelectedMembers(init, keep, name, s);
      if s in Selected(init, keep, name) {
        var k :| 0 <= k < |init| && keep(init[k]) && s == name(init[k]);
        assert xs[k] == init[k];
      }
      if exists k | 0 <= k < |xs| :: keep(xs[k]) && s == name(xs[k]) {
        var k :| 0 <= k < |xs| && keep(xs[k]) && s == name(xs[k]);
        if k < |init| {
          assert init[k] == xs[k];
        }
      }
    }
  }

  // ---------------------------------------------------------------------------------
  // modFiles

  /** The definition path without a trailing "prj": what the path of a file of the
      model starts with. */
  function Stem(definitionFile: string): string
  {
    TrimSuffix(definitionFile, "prj")
  }

  /** The path a directory of the listing stands for: the directory joined with its own
      name. */
  function DirFile(dirPath: string): string
  {
    PathJoin(dirPath, Base(dirPath))
  }

  predicate KeepsDir(definitionFile: string, dirPath: string)
  {
    HasPrefix(DirFile(dirPath), Stem(definitionFile))
  }

  predicate KeepsObject(definitionFile: string, key: string)
  {
    HasPrefix(key, Stem(definitionFile)) || Ext(Base(key)) == ".prj"
  }

  function KeptDirs(definitionFile: string, dirs: seq<string>): seq<string>
  {
    Selected(dirs, d => KeepsDir(definitionFile, d), DirFile)
  }

  function KeptObjects(definitionFile: string, objects: seq<ObjectInfo>): seq<string>
  {
    Selected(objects, (o: ObjectInfo) => KeepsObject(definitionFile, o.key), (o: ObjectInfo) => o.key)
  }

  lemma KeptDirsPrefix(definitionFile: string, dirs: seq<string>, i: nat)
    requires i < |dirs|
    ensures KeptDirs(definitionFile, dirs[..i + 1]) ==
      KeptDirs(definitionFile, dirs[..i]) + if KeepsDir(definitionFile, dirs[i]) then [DirFile(dirs[i])] else []
  {
    SelectedPrefix(dirs, i, d => KeepsDir(definitionFile, d), DirFile);
  }

  lemma KeptObjectsPrefix(definitionFile: string, objects: seq<ObjectInfo>, i: nat)
    requires i < |objects|
    ensures KeptObjects(definitionFile, objects[..i + 1]) ==
      KeptObjects(definitionFile, objects[..i]) + if KeepsObject(definitionFile, objects[i].key) then [objects[i].key] else []
  {
    SelectedPrefix(objects, i, (o: ObjectInfo) => KeepsObject(definitionFile, o.key), (o: ObjectInfo) => o.key);
  }

  lemma KeptObjectsSnoc(definitionFile: string, objects: seq<ObjectInfo>, o: ObjectInfo)
    ensures KeptObjects(definitionFile, objects + [o]) ==
      KeptObjects(definitionFile, objects) + if KeepsObject(definitionFile, o.key) then [o.key] else []
  {
    SelectedSnoc(objects, o, (o: ObjectInfo) => KeepsObject(definitionFile, o.key), (o: ObjectInfo) => o.key);
  }

  /** modFiles: the kept directories, then the kept objects, of the listing (without a
      delimiter) of the definition file's directory. */
  function ModFilesOf(store: Bucket, definitionFile: string): Result<seq<string>>
  {
    match GetList(store, Dir(definitionFile) + "/", false)
    case Failure(e) => Failure(e)
    case Success(l) => Success(KeptDirs(definitionFile, l.commonPrefixes) + KeptObjects(definitionFile, l.contents))
  }

  /** modFiles: the listing without a delimiter, then its two loops. */
  method ModFiles(store: Bucket, definitionFile: string) returns (r: Result<seq<string>>)
    ensures r == ModFilesOf(store, definitionFile)
  {
    var result := GetList(store, Dir(definitionFile) + "/", false);
    if result.Failure? {
      return Failure(result.error);
    }
    var mFiles := KeepDirs(definitionFile, result.value.commonPrefixes);
    mFiles := KeepObjects(definitionFile, result.value.contents, mFiles);
    return Success(mFiles);
  }

  /** The first loop of modFiles: each directory joined with its own name, kept when
      that path starts with the stem. */
  method KeepDirs(definitionFile: string, dirs: seq<string>) returns (mFiles: seq<string>)
    ensures mFiles == KeptDirs(definitionFile, dirs)
  {
    var stem := TrimSuffix(definitionFile, "prj");
    mFiles := [];
    for i := 0 to |dirs|
      invariant mFiles == KeptDirs(definitionFile, dirs[..i])
    {
      var dirPath := dirs[i];
      var filePath := DirFile(dirPath);
      KeptDirsPrefix(definitionFile, dirs, i);
      if HasPrefix(filePath, stem) {
        mFiles := mFiles + [filePath];
      }
    }
    assert dirs[..|dirs|] == dirs;
  }

  /** The second loop of modFiles: each object key, kept when it starts with the stem
      or its name has the extension ".prj", appended to the files so far. */
  method KeepObjects(definitionFile: string, objects: seq<ObjectInfo>, files: seq<string>) returns (mFiles: seq<string>)
    ensures mFiles == files + KeptObjects(definitionFile, objects)
  {
    var stem := TrimSuffix(definitionFile, "prj");
    mFiles := files;
    for j := 0 to |objects|
      invariant mFiles == files + KeptObjects(definitionFile, objects[..j])
    {
      var filePath := objects[j].key;
      var fileName := Base(filePath);
      KeptObjectsPrefix(definitionFile, objects, j);
      if HasPrefix(filePath, stem) || Ext(fileName) == ".prj" {
        mFiles := mFiles + [filePath];
      }
    }
    assert objects[..|objects|] == objects;
  }

  /** The file list of modFiles: the directories first, then the objects, each group in
      listing order; a directory is listed, joined with its own name, exactly when that
      path starts with the definition path minus "prj"; an object is listed exactly when
      its key does or its name has the extension ".prj"; a failed listing is the
      error. */
  lemma ModFilesListed(store: Bucket, definitionFile: string, s: string)
    ensures ModFilesOf(store, definitionFile).Failure? <==> Query(Dir(definitionFile) + "/", false) !in store.listings
    ensures ModFilesOf(store, definitionFile).Success? ==>
      var l := store.listings[Query(Dir(definitionFile) + "/", false)];
      var files := ModFilesOf(store, definitionFile).value;
      files == KeptDirs(definitionFile, l.commonPrefixes) + KeptObjects(definitionFile, l.contents) &&
      (s in KeptDirs(definitionFile, l.commonPrefixes) <==>
         exists k | 0 <= k < |l.commonPrefixes| ::
           HasPrefix(DirFile(l.commonPrefixes[k]), Stem(definitionFile)) && s == DirFile(l.commonPrefixes[k])) &&
      (s in KeptObjects(definitionFile, l.contents) <==>
         exists k | 0 <= k < |l.contents| ::
           (HasPrefix(l.contents[k].key, Stem(definitionFile)) || Ext(Base(l.contents[k].key)) == ".prj") &&
           s == l.contents[k].key)
  {
    if ModFilesOf(store, definitionFile).Success? {
      var l := store.listings[Query(Dir(definitionFile) + "/", false)];
      SelectedMembers(l.commonPrefixes, d => KeepsDir(definitionFile, d), DirFile, s);
      SelectedMembers(l.contents, (o: ObjectInfo) => KeepsObject(definitionFile, o.key), (o: ObjectInfo) => o.key, s);
    }
  }

  /** The kept objects of two listings in a row are those of the first, then those of the
      second: the order of the listing is the order of the file list. */
  lemma KeptObjectsInOrder(definitionFile: string, a: seq<ObjectInfo>, b: seq<ObjectInfo>)
    ensures KeptObjects(definitionFile, a + b) == KeptObjects(definitionFile, a) + KeptObjects(definitionFile, b)
  {
    SelectedConcat(a, b, (o: ObjectInfo) => KeepsObject(definitionFile, o.key), (o: ObjectInfo) => o.key);
  }

  /** The same for the directories. */
  lemma KeptDirsInOrder(definitionFile: string, a: seq<string>, b: seq<string>)
    ensures KeptDirs(definitionFile, a + b) == KeptDirs(definitionFile, a) + KeptDirs(definitionFile, b)
  {
    SelectedConcat(a, b, d => KeepsDir(definitionFile, d), DirFile);
  }

  // ---------------------------------------------------------------------------------
  // pullVersion

  const VersionKey := "Program Version="

  /** The only error a line scanner over content held in memory reports: a line longer
      than its buffer. */
  const TooLongMsg := "bufio.Scanner: token too long"

  function NoVersionMsg(fp: string): string
  {
    "unable to find program version in file " + fp
  }

  lemma {:induction false} ContainsHas(s: string, sub: string, c: char)
    requires Contains(s, sub) && c in sub
    ensures c in s
    decreases |s|
  {
    if HasPrefix(s, sub) {
      PrefixChar(s, sub, c);
    } else {
      ContainsHas(s[1..], sub, c);
      assert s == [s[0]] + s[1..];
    }
  }

  /** The first line from `pos` that contains the version key, or the end of the
      lines. */
  function VersionLineFrom(lines: seq<Line>, pos: nat): (k: nat)
    requires pos <= |lines|
    ensures pos <= k <= |lines|
    ensures k < |lines| ==> Contains(lines[k], VersionKey)
    ensures forall j | pos <= j < k :: !Contains(lines[j], VersionKey)
    decreases |lines| - pos
  {
    if pos == |lines| || Contains(lines[pos], VersionKey) then pos else VersionLineFrom(lines, pos + 1)
  }

  /** The version in a file's content: the text between the first and the second '=' of
      the first line holding the version key; otherwise the scanner's error, or an
      error naming the file. */
  function VersionIn(t: Text, fp: string): Result<string>
  {
    var k := VersionLineFrom(t.lines, 0);
    if k < |t.lines| then
      ContainsHas(t.lines[k], VersionKey, '=');
      Success(SecondField(t.lines[k], '='))
    else if t.scanFailed then Failure(Err(TooLongMsg))
    else Failure(Err(NoVersionMsg(fp)))
  }

  /** pullVersion: the object is fetched under the path without its leading '/'. */
  function PullVersionOf(store: Bucket, fp: string): Result<string>
  {
    match GetObject(store, TrimPrefix(fp, "/"))
    case Failure(e) => Failure(e)
    case Success(t) => VersionIn(t, fp)
  }

  /** The scanning loop of pullVersion, returning at the first line that holds the
      version key. */
  method PullVersion(store: Bucket, fp: string) returns (r: Result<string>)
    ensures r == PullVersionOf(store, fp)
  {
    var key := TrimPrefix(fp, "/");
    var content := GetObject(store, key);
    if content.Failure? {
      return Failure(content.error);
    }
    var lines := content.value.lines;
    var sc := new Scanner(lines);
    var more := sc.Scan();
    while more
      invariant sc.Valid() && sc.lines == lines
      invariant more ==> 0 < sc.pos && sc.text == lines[sc.pos - 1]
      invariant !more ==> sc.pos == |lines|
      invariant VersionLineFrom(lines, 0) == VersionLineFrom(lines, if more then sc.pos - 1 else sc.pos)
      decreases |lines| - sc.pos, more
    {
      var line := sc.text;
      if Contains(line, VersionKey) {
        ContainsHas(line, VersionKey, '=');
        return Success(SecondField(line, '='));
      }
      more := sc.Scan();
    }
    if content.value.scanFailed {
      return Failure(Err(TooLongMsg));
    }
    return Failure(Err(NoVersionMsg(fp)));
  }

  /** pullVersion finds a version exactly when a line holds the version key, and then
      it is the untrimmed text between the first '=' of the first such line and the
      next '=' (or the end of the line). */
  lemma VersionFound(t: Text, fp: string)
    ensures VersionIn(t, fp).Success? <==> exists k | 0 <= k < |t.lines| :: Contains(t.lines[k], VersionKey)
    ensures VersionIn(t, fp).Success? ==> exists k | 0 <= k < |t.lines| ::
      Contains(t.lines[k], VersionKey) && (forall j | 0 <= j < k :: !Contains(t.lines[j], VersionKey)) &&
      '=' in t.lines[k] &&
      var v := VersionIn(t, fp).value; var i := IndexOf(t.lines[k], '=');
      HasPrefix(t.lines[k][i + 1..], v) && '=' !in v && (i + 1 + |v| == |t.lines[k]| || t.lines[k][i + 1 + |v|] == '=')
  {
    var k := VersionLineFrom(t.lines, 0);
    if k < |t.lines| {
      ContainsHas(t.lines[k], VersionKey, '=');
    }
  }

  /** Without a line holding the version key, pullVersion reports the scanner's error
      when the scan failed and otherwise an error naming the file. */
  lemma VersionMissing(t: Text, fp: string)
    requires forall k | 0 <= k < |t.lines| :: !Contains(t.lines[k], VersionKey)
    ensures VersionIn(t, fp) == if t.scanFailed then Failure(Err(TooLongMsg)) else Failure(Err(NoVersionMsg(fp)))
  {
    var k := VersionLineFrom(t.lines, 0);
  }

  // ---------------------------------------------------------------------------------
  // getVersions

  /** The files getVersions asks for a version: plans, geometries and flows. */
  predicate Versioned(ext: string)
  {
    MatchString(Plan, ext) || MatchString(Geom, ext) || MatchString(AllFlow, ext)
  }

  /** The entry of a file, when it is asked for a version and has one. */
  function VersionEntry(store: Bucket, fp: string): Option<string>
  {
    var ver := PullVersionOf(store, fp);
    if Versioned(Ext(fp)) && ver.Success? then Some(RasModels.Entry(Ext(fp), ver.value)) else None
  }

  /** The entries "<ext>: <version>" of `files`, in order; a file whose version cannot
      be pulled has none. */
  function VersionEntries(store: Bucket, files: seq<string>): seq<string>
  {
    Selected(files, fp => VersionEntry(store, fp).Some?, fp => if VersionEntry(store, fp).Some? then VersionEntry(store, fp).value else "")
  }

  /** getVersions: the entries of the model's files joined by ", ". */
  function GetVersionsOf(store: Bucket, definitionFile: string): Result<string>
  {
    match ModFilesOf(store, definitionFile)
    case Failure(e) => Failure(e)
    case Success(files) => Success(JoinWith(VersionEntries(store, files), RasModels.VersionSep))
  }

  lemma VersionEntriesPrefix(store: Bucket, files: seq<string>, i: nat)
    requires i < |files|
    ensures VersionEntries(store, files[..i + 1]) == VersionEntries(store, files[..i]) +
      if VersionEntry(store, files[i]).Some? then [VersionEntry(store, files[i]).value] else []
  {
    SelectedPrefix(files, i, fp => VersionEntry(store, fp).Some?,
      fp => if VersionEntry(store, fp).Some? then VersionEntry(store, fp).value else "");
  }

  /** getVersions: the file list of modFiles, its entries each followed by ", ", and
      the last two characters dropped. */
  method GetVersions(store: Bucket, definitionFile: string) returns (r: Result<string>)
    ensures r == GetVersionsOf(store, definitionFile)
  {
    var mFiles := ModFiles(store, definitionFile);
    if mFiles.Failure? {
      return Failure(mFiles.error);
    }
    var version := AppendVersionEntries(store, mFiles.value);
    TrimTerminated(VersionEntries(store, mFiles.value), RasModels.VersionSep);
    if |version| >= 2 {
      version := version[0..|version| - 2];
    }
    return Success(version);
  }

  /** The loop of getVersions: "<ext>: <version>, " appended for each plan, geometry
      and flow file whose version can be pulled. */
  method AppendVersionEntries(store: Bucket, files: seq<string>) returns (version: string)
    ensures version == Terminated(VersionEntries(store, files), RasModels.VersionSep)
  {
    version := "";
    for i := 0 to |files|
      invariant version == Terminated(VersionEntries(store, files[..i]), RasModels.VersionSep)
    {
      var fp := files[i];
      var ext := Ext(fp);
      VersionEntriesPrefix(store, files, i);
      if MatchString(Plan, ext) || MatchString(Geom, ext) || MatchString(AllFlow, ext) {
        assert Versioned(Ext(fp));
        var ver := PullVersion(store, fp);
        assert VersionEntry(store, fp) == if ver.Success? then Some(RasModels.Entry(ext, ver.value)) else None;
        if ver.Success? {
          RasModels.TerminatedSnoc(VersionEntries(store, files[..i]), RasModels.Entry(ext, ver.value), RasModels.VersionSep);
          EntryAppended(version, ext, ver.value);
          version := version + ext + ": " + ver.value + RasModels.VersionSep;
          assert version == Terminated(VersionEntries(store, files[..i + 1]), RasModels.VersionSep);
        } else {
          assert VersionEntries(store, files[..i + 1]) == VersionEntries(store, files[..i]);
        }
      } else {
        assert VersionEntry(store, fp).None?;
        assert VersionEntries(store, files[..i + 1]) == VersionEntries(store, files[..i]);
      }
    }
    assert files[..|files|] == files;
  }

  /** The `+=` of one entry of getVersions, regrouped as one Entry: stated apart to keep
      the loop's invariant proof small. */
  lemma EntryAppended(v: string, ext: string, ver: string)
    ensures v + ext + ": " + ver + RasModels.VersionSep == v + RasModels.Entry(ext, ver) + RasModels.VersionSep
  {
  }

  /** getVersions fails only when modFiles does, with its error; a file is given an
      entry exactly when its extension is a plan, geometry or flow extension and its
      version can be pulled, and the entries keep the file-list order. */
  lemma VersionsOfModel(store: Bucket, definitionFile: string, s: string)
    ensures GetVersionsOf(store, definitionFile).Failure? <==> ModFilesOf(store, definitionFile).Failure?
    ensures GetVersionsOf(store, definitionFile).Failure? ==>
      GetVersionsOf(store, definitionFile).error == ModFilesOf(store, definitionFile).error
    ensures ModFilesOf(store, definitionFile).Success? ==>
      var files :=  ModFilesOf(store, definitionFile).value;
      (s in VersionEntries(store, files) <==>
        exists k | 0 <= k < |files| :: Versioned(Ext(files[k])) && PullVersionOf(store, files[k]).Success? &&
          s == Ext(files[k]) + ": " + PullVersionOf(store, files[k]).value)
  {
    if ModFilesOf(store, definitionFile).Success? {
      var files := ModFilesOf(store, definitionFile).value;
      SelectedMembers(files, fp => VersionEntry(store, fp).Some?,
        fp => if VersionEntry(store, fp).Some? then VersionEntry(store, fp).value else "", s);
    }
  }

  /** The entries of two file lists in a row are those of the first, then those of the
      second. */
  lemma VersionEntriesInOrder(store: Bucket, a: seq<string>, b: seq<string>)
    ensures VersionEntries(store, a + b) == VersionEntries(store, a) + VersionEntries(store, b)
  {
    SelectedConcat(a, b, fp => VersionEntry(store, fp).Some?,
      fp => if VersionEntry(store, fp).Some? then VersionEntry(store, fp).value else "");
  }

  // ---------------------------------------------------------------------------------
  // isAModel

  const ProjTitleKey := "Proj Title="

  /** The panic of `Ext(f)[0:2]` on an extension shorter than two characters. */
  const ExtSliceSite := "isAModel: slice bounds out of range [:2]"

  /** The checks of isAModel before its search: the definition file has the extension
      ".prj", its first line can be read and holds "Proj Title=", and its directory can
      be listed; then the file list of modFiles. */
  function ProjectFiles(store: Bucket, definitionFile: string): Option<seq<string>>
  {
    if Ext(definitionFile) != ".prj" then None
    else
      match GetObject(store, definitionFile)
      case Failure(_) => None
      case Success(t) =>
        if !Contains(RasModels.FirstLine(t), ProjTitleKey) then None
        else
          match ModFilesOf(store, definitionFile)
          case Failure(_) => None
          case Success(files) => Some(files)
  }

  /** The search of isAModel as written: the first file whose extension starts with
      ".g" decides, and a file before it whose extension is shorter than two characters
      panics. */
  function FindGeometryAsWritten(files: seq<string>): Result<bool>
    decreases |files|
  {
    if files == [] then Success(false)
    else
      var e := Ext(files[0]);
      if |e| < 2 then Failure(Panic(ExtSliceSite))
      else if e[..2] == ".g" then Success(true)
      else FindGeometryAsWritten(files[1..])
  }

  /** The search with its evident intent: some file has an extension starting with
      ".g". */
  function FindGeometry(files: seq<string>): bool
    decreases |files|
  {
    files != [] && (HasPrefix(Ext(files[0]), ".g") || FindGeometry(files[1..]))
  }

  function IsAModelAsWritten(store: Bucket, definitionFile: string): Result<bool>
  {
    match ProjectFiles(store, definitionFile)
    case None => Success(false)
    case Some(files) => FindGeometryAsWritten(files)
  }

  function IsAModel(store: Bucket, definitionFile: string): bool
  {
    match ProjectFiles(store, definitionFile)
    case None => false
    case Some(files) => FindGeometry(files)
  }

  lemma {:induction false} FindGeometryExists(files: seq<string>)
    ensures FindGeometry(files) <==> exists k | 0 <= k < |files| :: HasPrefix(Ext(files[k]), ".g")
    decreases |files|
  {
    if files != [] {
      FindGeometryExists(files[1..]);
      if exists k | 0 <= k < |files| :: HasPrefix(Ext(files[k]), ".g") {
        var k :| 0 <= k < |files| && HasPrefix(Ext(files[k]), ".g");
        if k > 0 {
          assert files[1..][k - 1] == files[k];
        }
      }
      if exists k | 0 <= k < |files[1..]| :: HasPrefix(Ext(files[1..][k]), ".g") {
        var k :| 0 <= k < |files[1..]| && HasPrefix(Ext(files[1..][k]), ".g");
        assert files[k + 1] == files[1..][k];
      }
    }
  }

  /** isAModel is false when the extension is not ".prj", when the first line cannot be
      read or lacks "Proj Title=", and when the listing fails; otherwise it is true
      exactly when a listed file's extension starts with ".g" (any ".g" extension, not
      only ".g##"). */
  lemma IsAModelChecks(store: Bucket, definitionFile: string)
    ensures IsAModel(store, definitionFile) <==>
      Ext(definitionFile) == ".prj" && GetObject(store, definitionFile).Success? &&
      Contains(RasModels.FirstLine(GetObject(store, definitionFile).value), ProjTitleKey) &&
      ModFilesOf(store, definitionFile).Success? &&
      exists k | 0 <= k < |ModFilesOf(store, definitionFile).value| ::
        HasPrefix(Ext(ModFilesOf(store, definitionFile).value[k]), ".g")
  {
    if ModFilesOf(store, definitionFile).Success? {
      FindGeometryExists(ModFilesOf(store, definitionFile).value);
    }
  }

  /** The file at `k` has an extension shorter than two characters and no file before
      it has an extension starting with ".g". */
  predicate ShortExtensionAt(files: seq<string>, k: nat)
  {
    k < |files| && |Ext(files[k])| < 2 && forall j | 0 <= j < k :: !HasPrefix(Ext(files[j]), ".g")
  }

  lemma ShortExtensionShifts(files: seq<string>, k: nat)
    requires files != [] && !HasPrefix(Ext(files[0]), ".g")
    ensures ShortExtensionAt(files, k + 1) <==> ShortExtensionAt(files[1..], k)
  {
    if k + 1 < |files| {
      assert files[1..][k] == files[k + 1];
      assert forall j | 0 <= j < k :: files[1..][j] == files[j + 1];
      if ShortExtensionAt(files[1..], k) {
        forall j | 0 <= j < k + 1 ensures !HasPrefix(Ext(files[j]), ".g") {
          if j > 0 {
            assert files[j] == files[1..][j - 1];
          }
        }
      }
    }
  }

  /** The search as written panics exactly when a file with an extension shorter than
      two characters comes before every file with a ".g" extension; otherwise it agrees
      with the intended one. */
  lemma {:induction false} AsWrittenSearch(files: seq<string>)
    ensures FindGeometryAsWritten(files).Failure? <==> exists k: nat :: ShortExtensionAt(files, k)
    ensures FindGeometryAsWritten(files).Success? ==> FindGeometryAsWritten(files).value == FindGeometry(files)
    decreases |files|
  {
    if files != [] {
      var tail := files[1..];
      AsWrittenSearch(tail);
      var e := Ext(files[0]);
      if |e| < 2 {
        assert ShortExtensionAt(files, 0);
      } else {
        assert HasPrefix(e, ".g") <==> e[..2] == ".g";
        if HasPrefix(e, ".g") {
          forall k: nat ensures !ShortExtensionAt(files, k) {
            if k > 0 && k < |files| {
              assert HasPrefix(Ext(files[0]), ".g");
            }
          }
        } else {
          if exists k: nat :: ShortExtensionAt(tail, k) {
            var k: nat :| ShortExtensionAt(tail, k);
            ShortExtensionShifts(files, k);
          }
          if exists k: nat :: ShortExtensionAt(files, k) {
            var k: nat :| ShortExtensionAt(files, k);
            assert k > 0;
            ShortExtensionShifts(files, k - 1);
          }
        }
      }
    }
  }

  /** A bundle whose directory "m/" holds the object "m/a." ahead of the geometry file
      "m/a.g01", beside the project file "m/a.prj". */
  const SampleTitle: Line := "Proj Title=a"

  function ShortExtensionBundle(): Bucket
  {
    Bucket(
      map["m/a.prj" := Text([SampleTitle], false)],
      map[Query("m/", false) := Listing([], [ObjectInfo("m/a.", 0, 0), ObjectInfo("m/a.g01", 0, 0)])],
      map[])
  }

  lemma SampleExtensions()
    ensures Ext("m/a.") == "." && Ext("m/a.prj") == ".prj" && Ext("m/a.g01") == ".g01"
  {
    SampleProjectExtension();
    SampleGeometryExtension();
  }

  lemma SampleProjectExtension()
    ensures Ext("m/a.prj") == ".prj"
  {
    assert "m/a.prj"[..6] == "m/a.pr" && "m/a.pr"[..5] == "m/a.p" && "m/a.p"[..4] == "m/a.";
    assert "." + "p" == ".p" && ".p" + "r" == ".pr" && ".pr" + "j" == ".prj";
  }

  lemma SampleGeometryExtension()
    ensures Ext("m/a.") == "." && Ext("m/a.g01") == ".g01"
  {
    assert "m/a.g01"[..6] == "m/a.g0" && "m/a.g0"[..5] == "m/a.g" && "m/a.g"[..4] == "m/a.";
    assert "." + "g" == ".g" && ".g" + "0" == ".g0" && ".g0" + "1" == ".g01";
  }

  lemma SampleDir()
    ensures Dir("m/a.prj") + "/" == "m/"
  {
    assert "m/a.prj"[..6] == "m/a.pr" && "m/a.pr"[..5] == "m/a.p" && "m/a.p"[..4] == "m/a.";
    assert "m/a."[..3] == "m/a" && "m/a"[..2] == "m/";
    assert UpToLastSlash("m/a.prj") == "m/";
    assert IndexOf("m/", '/') == 1 && "m/"[..1] == "m" && "m/"[2..] == "";
    assert Split("m/", '/') == ["m", ""];
    assert CleanElements(["m", ""], false, []) == ["m"];
    assert Clean("m/") == "m";
  }

  lemma SampleKept()
    ensures KeptObjects("m/a.prj", [ObjectInfo("m/a.", 0, 0), ObjectInfo("m/a.g01", 0, 0)]) == ["m/a.", "m/a.g01"]
  {
    assert "m/a.prj"[4..] == "prj" && "m/a.prj"[..4] == "m/a.";
    assert Stem("m/a.prj") == "m/a.";
    var first, second := ObjectInfo("m/a.", 0, 0), ObjectInfo("m/a.g01", 0, 0);
    assert "m/a.g01"[..4] == "m/a.";
    assert KeepsObject("m/a.prj", first.key);
    assert KeepsObject("m/a.prj", second.key);
    KeptObjectsSnoc("m/a.prj", [], first);
    assert [] + [first] == [first];
    KeptObjectsSnoc("m/a.prj", [first], second);
    assert [first] + [second] == [first, second];
  }

  lemma ProjectFilesListed(store: Bucket, definitionFile: string, t: Text, files: seq<string>)
    requires Ext(definitionFile) == ".prj" && GetObject(store, definitionFile) == Success(t)
    requires Contains(RasModels.FirstLine(t), ProjTitleKey) && ModFilesOf(store, definitionFile) == Success(files)
    ensures ProjectFiles(store, definitionFile) == Some(files)
  {
  }

  lemma ModFilesFromListing(store: Bucket, definitionFile: string, prefix: string, l: Listing)
    requires Dir(definitionFile) + "/" == prefix && GetList(store, prefix, false) == Success(l)
    ensures ModFilesOf(store, definitionFile) ==
      Success(KeptDirs(definitionFile, l.commonPrefixes) + KeptObjects(definitionFile, l.contents))
  {
  }

  lemma SampleModFiles()
    ensures ModFilesOf(ShortExtensionBundle(), "m/a.prj") == Success(["m/a.", "m/a.g01"])
  {
    var b := ShortExtensionBundle();
    SampleDir();
    SampleKept();
    var l := Listing([], [ObjectInfo("m/a.", 0, 0), ObjectInfo("m/a.g01", 0, 0)]);
    assert GetList(b, "m/", false) == Success(l);
    assert KeptDirs("m/a.prj", []) == [];
    ModFilesFromListing(b, "m/a.prj", "m/", l);
    assert [] + ["m/a.", "m/a.g01"] == ["m/a.", "m/a.g01"];
  }

  lemma SampleTitled()
    ensures Contains(RasModels.FirstLine(Text([SampleTitle], false)), ProjTitleKey)
  {
    assert RasModels.FirstLine(Text([SampleTitle], false)) == SampleTitle;
    assert SampleTitle[..|ProjTitleKey|] == ProjTitleKey;
  }

  lemma SampleFiles()
    ensures ProjectFiles(ShortExtensionBundle(), "m/a.prj") == Some(["m/a.", "m/a.g01"])
  {
    var b := ShortExtensionBundle();
    SampleExtensions();
    SampleModFiles();
    SampleTitled();
    var t := Text([SampleTitle], false);
    assert GetObject(b, "m/a.prj") == Success(t);
    ProjectFilesListed(b, "m/a.prj", t, ["m/a.", "m/a.g01"]);
  }

  /** In that bundle the definition file "m/a.prj" is a valid project file and the model
      has a geometry, but isAModel as written panics on the extension "." of the first
      listed file. */
  lemma ShortExtensionPanics()
    ensures IsAModelAsWritten(ShortExtensionBundle(), "m/a.prj") == Failure(Panic(ExtSliceSite))
    ensures IsAModel(ShortExtensionBundle(), "m/a.prj")
  {
    SampleFiles();
    SampleExtensions();
    assert ["m/a.", "m/a.g01"][1..] == ["m/a.g01"];
  }

  // ---------------------------------------------------------------------------------
  // isGeospatial

  const GeomMarker := ".g"

  /** The panic of `Split(version, ":")[1]` on a piece without ':'. */
  const SplitSite := "isGeospatial: index out of range [1] with length 1"

  /** A piece of the version string passes: it is not a geometry entry, or its version
      (the trimmed text after its first ':') is a number of at least 4. */
  predicate GeometryVersionPasses(piece: string)
  {
    !Contains(piece, GeomMarker) ||
    (':' in piece && var v := ParseFloat(TrimSpace(SecondField(piece, ':'))); v.Success? && v.value >= 4.0)
  }

  /** The loop of isGeospatial over the pieces, with its early returns. */
  function CheckGeometryVersions(pieces: seq<string>): Result<bool>
    decreases |pieces|
  {
    if pieces == [] then Success(true)
    else
      var piece := pieces[0];
      if !Contains(piece, GeomMarker) then CheckGeometryVersions(pieces[1..])
      else if ':' !in piece then Failure(Panic(SplitSite))
      else
        var v := ParseFloat(TrimSpace(SecondField(piece, ':')));
        if v.Failure? then Success(false)
        else if v.value < 4.0 then Success(false)
        else CheckGeometryVersions(pieces[1..])
  }

  /** isGeospatial: false when the versions cannot be had, otherwise the check of the
      pieces of the version string split on ','. */
  function IsGeospatialOf(store: Bucket, definitionFile: string): Result<bool>
  {
    match GetVersionsOf(store, definitionFile)
    case Failure(_) => Success(false)
    case Success(v) => CheckGeometryVersions(Split(v, ','))
  }

  /** The check is true exactly when every piece passes. */
  lemma {:induction false} AllVersionsPass(pieces: seq<string>)
    ensures CheckGeometryVersions(pieces) == Success(true) <==> forall k | 0 <= k < |pieces| :: GeometryVersionPasses(pieces[k])
    decreases |pieces|
  {
    if pieces != [] {
      var tail := pieces[1..];
      AllVersionsPass(tail);
      if GeometryVersionPasses(pieces[0]) {
        assert forall k | 0 <= k < |tail| :: tail[k] == pieces[k + 1];
        if forall k | 0 <= k < |tail| :: GeometryVersionPasses(tail[k]) {
          forall k | 0 <= k < |pieces| ensures GeometryVersionPasses(pieces[k]) {
            if k > 0 {
              assert pieces[k] == tail[k - 1];
            }
          }
        }
      }
    }
  }

  /** The first piece that does not pass decides: false when it has a ':', a panic
      when it has none. */
  lemma {:induction false} FirstFailingVersion(pieces: seq<string>, k: nat)
    requires k < |pieces| && !GeometryVersionPasses(pieces[k])
    requires forall j | 0 <= j < k :: GeometryVersionPasses(pieces[j])
    ensures CheckGeometryVersions(pieces) == if ':' in pieces[k] then Success(false) else Failure(Panic(SplitSite))
    decreases k
  {
    if k > 0 {
      var tail := pieces[1..];
      assert tail[k - 1] == pieces[k];
      forall j | 0 <= j < k - 1 ensures GeometryVersionPasses(tail[j]) {
        assert tail[j] == pieces[j + 1];
      }
      FirstFailingVersion(tail, k - 1);
      assert GeometryVersionPasses(pieces[0]);
    }
  }

  /** isGeospatial is false when getVersions fails, and true for a model without
      versions (the empty version string has a single piece, which is not a geometry
      entry). */
  lemma GeospatialWithoutVersions(store: Bucket, definitionFile: string)
    ensures GetVersionsOf(store, definitionFile).Failure? ==> IsGeospatialOf(store, definitionFile) == Success(false)
    ensures GetVersionsOf(store, definitionFile) == Success("") ==> IsGeospatialOf(store, definitionFile) == Success(true)
  {
    if GetVersionsOf(store, definitionFile) == Success("") {
      assert Split("", ',') == [""];
      assert !Contains("", GeomMarker);
      assert [""][1..] == [];
    }
  }
}
