/** The plan-file parser: the identifiers a plan file declares by key, its description
    block and its flow regime, and the note recorded when the file cannot be read. */
module PlanFile {
  import opened Wrappers
  import opened GoStrings
  import opened LineScanner
  import opened ObjectStore
  import opened GeomReaders

  datatype PlanFileContents = PlanFileContents(
    path: string,
    hash: string,
    fileExt: string,
    planTitle: string,
    shortIdentifier: string,
    programVersion: string,
    geomFile: string,
    flowFile: string,
    flowRegime: string,
    description: string,
    notes: string)

  /** The fields a plan line can set. */
  datatype PlanField = PlanTitle | ShortIdentifier | ProgramVersion | GeomFile | FlowFile | FlowRegime

  function Get(meta: PlanFileContents, f: PlanField): string
  {
    match f
    case PlanTitle => meta.planTitle
    case ShortIdentifier => meta.shortIdentifier
    case ProgramVersion => meta.programVersion
    case GeomFile => meta.geomFile
    case FlowFile => meta.flowFile
    case FlowRegime => meta.flowRegime
  }

  /** `meta` with field `f` set to `v`, every other field as it was. */
  function Set(meta: PlanFileContents, f: PlanField, v: string): (r: PlanFileContents)
    ensures Get(r, f) == v
    ensures forall g: PlanField | g != f :: Get(r, g) == Get(meta, g)
    ensures r.path == meta.path && r.hash == meta.hash && r.fileExt == meta.fileExt
    ensures r.description == meta.description && r.notes == meta.notes
  {
    match f
    case PlanTitle => meta.(planTitle := v)
    case ShortIdentifier => meta.(shortIdentifier := v)
    case ProgramVersion => meta.(programVersion := v)
    case GeomFile => meta.(geomFile := v)
    case FlowFile => meta.(flowFile := v)
    case FlowRegime => meta.(flowRegime := v)
  }

  /** The field a key names, for the five keys the parser knows. */
  function KeyField(key: string): Option<PlanField>
  {
    if key == "Plan Title" then Some(PlanTitle)
    else if key == "Short Identifier" then Some(ShortIdentifier)
    else if key == "Program Version" then Some(ProgramVersion)
    else if key == "Geom File" then Some(GeomFile)
    else if key == "Flow File" then Some(FlowFile)
    else None
  }

  /** The three regime names, matched anywhere in a line. */
  predicate IsRegimeLine(line: string)
  {
    Contains(line, "Subcritical") || Contains(line, "Supercritical") || Contains(line, "Mixed")
  }

  /** A line that opens a description block: it holds no '=' and holds "BEGIN DESCRIPTION". */
  predicate BeginsDescription(line: string)
  {
    '=' !in line && Contains(line, "BEGIN DESCRIPTION")
  }

  /** What a line outside a description block sets: a line holding '=' sets the field its
      key names (the exact text before the first '=') to the text between the first '='
      and the next one; a line without '=' that names a regime sets the regime to the
      whole line, unless it opens a description. */
  function Assignment(line: string): (r: Option<(PlanField, string)>)
    ensures r.Some? && r.value.0 == FlowRegime ==> r.value.1 == line && IsRegimeLine(line) && '=' !in line
    ensures BeginsDescription(line) ==> r.None?
  {
    if '=' in line then
      match KeyField(Split(line, '=')[0])
      case None => None
      case Some(f) => Some((f, SecondField(line, '=')))
    else if Contains(line, "BEGIN DESCRIPTION") then None
    else if IsRegimeLine(line) then Some((FlowRegime, line))
    else None
  }

  /** A line holding '=' assigns the field its key names, the key being the exact text
      before the first '=' and the value the untrimmed text between the first '=' and the
      next one (or the end of the line); a key the parser does not know assigns nothing. */
  lemma KeyLine(line: string)
    requires '=' in line
    ensures var i := IndexOf(line, '=');
      match KeyField(line[..i])
      case None => Assignment(line).None?
      case Some(f) =>
        Assignment(line).Some? && Assignment(line).value.0 == f &&
        var v := Assignment(line).value.1;
        HasPrefix(line[i + 1..], v) && '=' !in v && (i + 1 + |v| == |line| || line[i + 1 + |v|] == '=')
  {
    SplitSecondField(line, '=');
  }

  /** The text a description block adds: each non-empty line before the end marker,
      each followed by "\n". */
  function PlanDescriptionText(lines: seq<Line>, from: nat): string
    requires from <= |lines|
  {
    Terminated(NonEmpty(lines[from..FirstContaining(lines, from, "END DESCRIPTION")]), "\n")
  }

  /** The scan loop of getPlanData from line `pos` to the end of the file. */
  function PlanScan(lines: seq<Line>, pos: nat, meta: PlanFileContents): PlanFileContents
    requires pos <= |lines|
    decreases |lines| - pos
  {
    if pos == |lines| then meta
    else if BeginsDescription(lines[pos]) then
      PlanScan(lines, DescriptionEnd(lines, pos + 1, "END DESCRIPTION"),
        meta.(description := meta.description + PlanDescriptionText(lines, pos + 1)))
    else
      match Assignment(lines[pos])
      case None => PlanScan(lines, pos + 1, meta)
      case Some((f, v)) => PlanScan(lines, pos + 1, Set(meta, f, v))
  }

  /** The note getPlanData leaves on a file it could not read. */
  function FailedNote(fn: string): string
  {
    Base(fn) + " failed to process."
  }

  /** getPlanData: the record is produced whether or not the file can be read. `digest`
      is the lowercase hex SHA-256 digest of the file's bytes, which the model takes as
      given. */
  function PlanData(store: Bucket, fn: string, digest: string): PlanFileContents
  {
    var meta := PlanFileContents(fn, "", Ext(fn), "", "", "", "", "", "", "", "");
    match GetObject(store, fn)
    case Failure(_) => meta.(notes := FailedNote(fn))
    case Success(text) => PlanScan(text.lines, 0, meta).(hash := digest)
  }

  /** The inner loop of getPlanData: the description lines up to the end marker. */
  method ReadPlanDescription(sc: Scanner) returns (description: string)
    requires sc.Valid()
    modifies sc
    ensures sc.Valid()
    ensures sc.pos == DescriptionEnd(sc.lines, old(sc.pos), "END DESCRIPTION")
    ensures description == PlanDescriptionText(sc.lines, old(sc.pos))
  {
    ghost var from := sc.pos;
    description := "";
    while true
      invariant sc.Valid() && from <= sc.pos
      invariant FirstContaining(sc.lines, from, "END DESCRIPTION") == FirstContaining(sc.lines, sc.pos, "END DESCRIPTION")
      invariant description == Terminated(NonEmpty(sc.lines[from..sc.pos]), "\n")
      decreases |sc.lines| - sc.pos
    {
      ghost var p := sc.pos;
      var ok := sc.Scan();
      if !ok {
        return;
      }
      var line := sc.text;
      if Contains(line, "END DESCRIPTION") {
        return;
      }
      DescriptionStep(sc.lines, from, p, sc.pos);
      if line != "" {
        description := description + line + "\n";
      }
    }
  }

  /** One more line of a description block adds that line and a newline, unless it is
      empty. */
  lemma DescriptionStep(lines: seq<Line>, from: nat, p: nat, q: nat)
    requires from <= p < |lines| && q == p + 1
    ensures Terminated(NonEmpty(lines[from..q]), "\n")
      == Terminated(NonEmpty(lines[from..p]), "\n") + (if lines[p] == "" then "" else lines[p] + "\n")
  {
    var before := lines[from..p];
    assert lines[from..q] == before + [lines[p]];
    NonEmptySnoc(before, lines[p]);
    if lines[p] != "" {
      assert (NonEmpty(before) + [lines[p]])[..|NonEmpty(before)|] == NonEmpty(before);
    }
  }

  method ReadPlanFile(store: Bucket, fn: string, digest: string) returns (meta: PlanFileContents)
    ensures meta == PlanData(store, fn, digest)
  {
    meta := PlanFileContents(fn, "", Ext(fn), "", "", "", "", "", "", "", "");
    var msg := FailedNote(fn);
    var f := GetObject(store, fn);
    if f.Failure? {
      meta := meta.(notes := meta.notes + msg);
      return;
    }
    var sc := new Scanner(f.value.lines);
    ghost var whole := PlanScan(sc.lines, 0, meta);
    while true
      invariant sc.Valid() && sc.lines == f.value.lines
      invariant whole == PlanScan(sc.lines, sc.pos, meta)
      decreases |sc.lines| - sc.pos
    {
      var ok := sc.Scan();
      if !ok {
        break;
      }
      var line := sc.text;
      var hasEquals := '=' in line;
      var beginDescription := Contains(line, "BEGIN DESCRIPTION");
      var flowRegime := IsRegimeLine(line);
      if hasEquals {
        var data := Split(line, '=');
        var field := KeyField(data[0]);
        if field.Some? {
          meta := Set(meta, field.value, data[1]);
        }
      } else if beginDescription {
        var description := ReadPlanDescription(sc);
        meta := meta.(description := meta.description + description);
      } else if flowRegime {
        meta := meta.(flowRegime := line);
      }
    }
    msg := "";
    meta := meta.(notes := meta.notes + msg, hash := digest);
  }

  /** getPlanData always records the file's path and extension; the note says the file
      failed exactly when it could not be fetched, and only a file that was read gets
      its digest and the text of the description blocks its loop opens. */
  lemma PlanRecord(store: Bucket, fn: string, digest: string)
    ensures var r := PlanData(store, fn, digest);
      r.path == fn && r.fileExt == Ext(fn) &&
      (r.notes == "" <==> GetObject(store, fn).Success?) &&
      (GetObject(store, fn).Failure? ==>
         r.notes == FailedNote(fn) && r.hash == "" && r.description == "" && forall f: PlanField :: Get(r, f) == "") &&
      (GetObject(store, fn).Success? ==>
         r.hash == digest &&
         var lines := GetObject(store, fn).value.lines;
         r.description == DescriptionsAmong(lines, PlanVisited(lines, 0)))
  {
    var meta := PlanFileContents(fn, "", Ext(fn), "", "", "", "", "", "", "", "");
    if GetObject(store, fn).Success? {
      PlanScanKeeps(GetObject(store, fn).value.lines, 0, meta);
      DescriptionsGathered(GetObject(store, fn).value.lines, 0, meta);
    }
  }

  /** The scan sets only the six fields and the description: path, digest, extension and
      note stay as they were, and the description only grows. */
  lemma {:induction false} PlanScanKeeps(lines: seq<Line>, pos: nat, meta: PlanFileContents)
    requires pos <= |lines|
    ensures var r := PlanScan(lines, pos, meta);
      r.path == meta.path && r.hash == meta.hash && r.fileExt == meta.fileExt && r.notes == meta.notes &&
      HasPrefix(r.description, meta.description)
    decreases |lines| - pos
  {
    if pos < |lines| {
      if BeginsDescription(lines[pos]) {
        var m := meta.(description := meta.description + PlanDescriptionText(lines, pos + 1));
        PlanScanKeeps(lines, DescriptionEnd(lines, pos + 1, "END DESCRIPTION"), m);
        PrefixTrans(PlanScan(lines, pos, meta).description, m.description, meta.description);
      } else {
        match Assignment(lines[pos])
        case None => PlanScanKeeps(lines, pos + 1, meta);
        case Some((f, v)) => PlanScanKeeps(lines, pos + 1, Set(meta, f, v));
      }
    }
  }

  lemma PrefixTrans(a: string, b: string, c: string)
    requires HasPrefix(a, b) && HasPrefix(b, c)
    ensures HasPrefix(a, c)
  {
    assert a[..|c|] == a[..|b|][..|c|];
  }

  /** The lines the loop of getPlanData tests from `pos`, in order: the lines of a
      description block are read by the description reader and passed over. */
  function PlanVisited(lines: seq<Line>, pos: nat): (v: seq<nat>)
    requires pos <= |lines|
    ensures LinesFrom(lines, v, pos)
    ensures v == [] <==> pos == |lines|
    ensures v != [] ==> v[0] == pos
    decreases |lines| - pos
  {
    if pos == |lines| then []
    else if BeginsDescription(lines[pos]) then [pos] + PlanVisited(lines, DescriptionEnd(lines, pos + 1, "END DESCRIPTION"))
    else [pos] + PlanVisited(lines, pos + 1)
  }

  /** Whether the loop of getPlanData, having tested line `i`, may test line `j` next:
      the following line, or the one after the description block line `i` opens. */
  predicate PlanGap(lines: seq<Line>, i: nat, j: nat)
  {
    j == i + 1 ||
    (i < |lines| && BeginsDescription(lines[i]) && j == DescriptionEnd(lines, i + 1, "END DESCRIPTION"))
  }

  /** The loop passes over the lines of description blocks and no others: each line
      it tests is followed by the next one or by the line after the block it opens,
      up to the end of the file. */
  lemma {:induction false} PlanVisitedGaps(lines: seq<Line>, pos: nat)
    requires pos <= |lines|
    ensures var v := PlanVisited(lines, pos);
      (forall k | 0 <= k < |v| - 1 :: PlanGap(lines, v[k], v[k + 1])) &&
      (v != [] ==> PlanGap(lines, v[|v| - 1], |lines|))
    decreases |lines| - pos
  {
    if pos < |lines| {
      var next := if BeginsDescription(lines[pos]) then DescriptionEnd(lines, pos + 1, "END DESCRIPTION") else pos + 1;
      PlanVisitedGaps(lines, next);
      var v, w := PlanVisited(lines, pos), PlanVisited(lines, next);
      assert v == [pos] + w;
      assert PlanGap(lines, pos, next);
      forall k | 0 <= k < |v| - 1
        ensures PlanGap(lines, v[k], v[k + 1])
      {
        if k > 0 { assert v[k] == w[k - 1] && v[k + 1] == w[k]; }
      }
      if w != [] { assert v[|v| - 1] == w[|w| - 1]; }
    }
  }

  /** The value the last of the lines at the indices `v` that assigns field `f` gives it;
      None when none does. */
  function LastAssigned(lines: seq<Line>, v: seq<nat>, f: PlanField): Option<string>
  {
    if v == [] then None
    else match LastAssigned(lines, v[1..], f)
      case Some(x) => Some(x)
      case None =>
        if v[0] < |lines| && Assignment(lines[v[0]]).Some? && Assignment(lines[v[0]]).value.0 == f then
          Some(Assignment(lines[v[0]]).value.1)
        else None
  }

  /** Each field ends up with the value of the last line the loop tests that assigns it,
      and keeps its old value when none does. */
  lemma {:induction false} LastAssignmentWins(lines: seq<Line>, pos: nat, meta: PlanFileContents, f: PlanField)
    requires pos <= |lines|
    ensures Get(PlanScan(lines, pos, meta), f)
      == match LastAssigned(lines, PlanVisited(lines, pos), f) case Some(x) => x case None => Get(meta, f)
    decreases |lines| - pos
  {
    if pos < |lines| {
      var next, m := PlanLineStep(lines, pos, meta, f);
      LastAssignmentWins(lines, next, m, f);
      var v := PlanVisited(lines, pos);
      assert v[1..] == PlanVisited(lines, next);
    }
  }

  /** The text a tested line `i` adds to the description: that of the block it opens. */
  function DescriptionAt(lines: seq<Line>, i: nat): string
  {
    if i < |lines| && BeginsDescription(lines[i]) then PlanDescriptionText(lines, i + 1) else ""
  }

  /** The text the description blocks opened at the indices `v` add, in order. */
  function DescriptionsAmong(lines: seq<Line>, v: seq<nat>): string
  {
    if v == [] then "" else DescriptionAt(lines, v[0]) + DescriptionsAmong(lines, v[1..])
  }

  lemma DescriptionsCons(lines: seq<Line>, pos: nat, w: seq<nat>, d: string)
    ensures d + DescriptionsAmong(lines, [pos] + w) == (d + DescriptionAt(lines, pos)) + DescriptionsAmong(lines, w)
  {
    assert ([pos] + w)[1..] == w;
  }

  /** The description the scan leaves is the old one followed by the text of every
      description block a tested line opens, in file order. */
  lemma {:induction false} DescriptionsGathered(lines: seq<Line>, pos: nat, meta: PlanFileContents)
    requires pos <= |lines|
    ensures PlanScan(lines, pos, meta).description == meta.description + DescriptionsAmong(lines, PlanVisited(lines, pos))
    decreases |lines| - pos
  {
    if pos < |lines| {
      var next, m, t := DescriptionLineStep(lines, pos, meta);
      DescriptionsGathered(lines, next, m);
      DescriptionsCons(lines, pos, PlanVisited(lines, next), meta.description);
    }
  }

  /** One line the loop tests, as the description sees it: the block the line opens adds
      its text `t`, and any other line adds nothing. */
  lemma DescriptionLineStep(lines: seq<Line>, pos: nat, meta: PlanFileContents) returns (next: nat, m: PlanFileContents, t: string)
    requires pos < |lines|
    ensures pos < next <= |lines|
    ensures PlanVisited(lines, pos) == [pos] + PlanVisited(lines, next)
    ensures PlanScan(lines, pos, meta) == PlanScan(lines, next, m)
    ensures t == DescriptionAt(lines, pos)
    ensures m.description == meta.description + t
  {
    var a := Assignment(lines[pos]);
    if BeginsDescription(lines[pos]) {
      next := DescriptionEnd(lines, pos + 1, "END DESCRIPTION");
      t := PlanDescriptionText(lines, pos + 1);
      m := meta.(description := meta.description + t);
      assert PlanVisited(lines, pos) == [pos] + PlanVisited(lines, next);
    } else {
      next := pos + 1;
      t := "";
      assert PlanVisited(lines, pos) == [pos] + PlanVisited(lines, next);
      if a.None? {
        m := meta;
      } else {
        m := Set(meta, a.value.0, a.value.1);
      }
      assert meta.description + t == meta.description;
    }
  }

  /** One line the loop tests: the loop goes on at `next` with `m`, where field `f` has
      the value the line assigns it, or keeps its value. */
  lemma PlanLineStep(lines: seq<Line>, pos: nat, meta: PlanFileContents, f: PlanField) returns (next: nat, m: PlanFileContents)
    requires pos < |lines|
    ensures pos < next <= |lines|
    ensures PlanVisited(lines, pos) == [pos] + PlanVisited(lines, next)
    ensures PlanScan(lines, pos, meta) == PlanScan(lines, next, m)
    ensures var a := Assignment(lines[pos]);
      Get(m, f) == if a.Some? && a.value.0 == f then a.value.1 else Get(meta, f)
  {
    var a := Assignment(lines[pos]);
    if BeginsDescription(lines[pos]) {
      next := DescriptionEnd(lines, pos + 1, "END DESCRIPTION");
      m := meta.(description := meta.description + PlanDescriptionText(lines, pos + 1));
      assert PlanVisited(lines, pos) == [pos] + PlanVisited(lines, next);
    } else {
      next := pos + 1;
      assert PlanVisited(lines, pos) == [pos] + PlanVisited(lines, next);
      if a.None? {
        m := meta;
      } else {
        m := Set(meta, a.value.0, a.value.1);
      }
    }
  }

  /** A regime line sets the regime only when it holds no '=' and opens no description:
      a key line that names a regime is read as a key line. */
  lemma RegimeNeedsNoKey(line: string)
    ensures Assignment(line).Some? && Assignment(line).value.0 == FlowRegime <==>
      '=' !in line && !Contains(line, "BEGIN DESCRIPTION") && IsRegimeLine(line)
  {
  }
}
