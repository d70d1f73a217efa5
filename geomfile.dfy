/** The geometry-file parser proper: the per-reach structure counts and the forward
    scan of a whole geometry file (title, program version, header description, one
    structures record per reach). */
module GeomFile {
  import opened Wrappers
  import opened GoStrings
  import opened Numbers
  import opened LineScanner
  import opened ObjectStore
  import opened GeomReaders
  import opened GeomBridges

  const RiverReachKey := "River Reach="
  const TypeLineKey := "Type RM Length L Ch R ="

  datatype BridgeData = BridgeData(numBridges: nat, bridges: seq<Bridge>)

  datatype Structures = Structures(
    river: string,
    reach: string,
    numXS: nat,
    numCulverts: nat,
    bridgeData: BridgeData,
    numInlines: nat)

  const NoStructures := Structures("", "", 0, 0, BridgeData(0, []), 0)

  datatype GeomFileContents = GeomFileContents(
    path: string,
    fileExt: string,
    geomTitle: string,
    programVersion: string,
    description: string,
    structures: seq<Structures>)

  /** The comma fields to the right of the '=' of a structure line. */
  function TypeFields(line: string): (data: seq<string>)
    requires HasPrefix(line, TypeLineKey)
    ensures |data| >= 1
  {
    PrefixChar(line, TypeLineKey, '=');
    Split(RightOfEquals(line), ',')
  }

  /** The type code of a structure line: its first field as an integer. */
  function TypeCode(line: string): Result<int>
    requires HasPrefix(line, TypeLineKey)
  {
    Atoi(TrimSpace(TypeFields(line)[0]))
  }

  /** The counts after a structure line of type `code` that is not a bridge: 1 is a
      cross section, 2 a culvert, 5 an inline structure; any other code counts nothing. */
  function Tally(s: Structures, code: int): Structures
  {
    if code == 1 then s.(numXS := s.numXS + 1)
    else if code == 2 then s.(numCulverts := s.numCulverts + 1)
    else if code == 5 then s.(numInlines := s.numInlines + 1)
    else s
  }

  /** The record after a bridge block: the bridge read is kept and counted. */
  function WithBridge(s: Structures, b: Step<Bridge>): Step<Structures>
  {
    if b.result.Failure? then Step(Failure(b.result.error), b.next)
    else
      var bd := s.bridgeData;
      Step(Success(s.(bridgeData := BridgeData(bd.numBridges + 1, bd.bridges + [b.result.value]))), b.next)
  }

  /** One structure line at `pos`: type code 3 reads a bridge from the lines after it,
      any other code is tallied. */
  function TypeLineStep(lines: seq<Line>, pos: nat, s: Structures): (r: Step<Structures>)
    requires pos < |lines| && HasPrefix(lines[pos], TypeLineKey)
    ensures pos < r.next <= |lines|
  {
    match TypeCode(lines[pos])
    case Failure(e) => Step(Failure(e), pos + 1)
    case Success(code) =>
      if code == 3 then WithBridge(s, BridgeBlock(lines, pos + 1, TypeFields(lines[pos])))
      else Step(Success(Tally(s, code)), pos + 1)
  }

  /** The loop of getHydraulicStructureData after the reach's own line, from `pos`: the
      structure lines are counted up to the next reach line (consumed) or the end of the
      input; the first error stops the scan. */
  function StructureScan(lines: seq<Line>, pos: nat, s: Structures): (r: Step<Structures>)
    requires pos <= |lines|
    ensures pos <= r.next <= |lines|
    decreases |lines| - pos
  {
    if pos == |lines| then Step(Success(s), pos)
    else if HasPrefix(lines[pos], RiverReachKey) then Step(Success(s), pos + 1)
    else if !HasPrefix(lines[pos], TypeLineKey) then StructureScan(lines, pos + 1, s)
    else
      var t := TypeLineStep(lines, pos, s);
      if t.result.Failure? then t else StructureScan(lines, t.next, t.result.value)
  }

  /** getHydraulicStructureData on the lines of the file: the river and the reach are the
      first two comma fields to the right of the '=' of line `idx`; a line without '='
      or without a second field panics. An index past the end gives an empty record. */
  function StructureData(lines: seq<Line>, idx: nat): (r: Step<Structures>)
    ensures r.next <= |lines|
  {
    if idx >= |lines| then Step(Success(NoStructures), |lines|)
    else if '=' !in lines[idx] then Step(Failure(Panic(IndexPanic)), idx + 1)
    else
      var riverReach := Split(RightOfEquals(lines[idx]), ',');
      if |riverReach| < 2 then Step(Failure(Panic(IndexPanic)), idx + 1)
      else
        StructureScan(lines, idx + 1,
          NoStructures.(river := TrimSpace(riverReach[0]), reach := TrimSpace(riverReach[1])))
  }

  /** getHydraulicStructureData: the file is fetched afresh; a file that cannot be
      fetched gives an empty record and no error. */
  function HydraulicStructureData(store: Bucket, fn: string, idx: nat): Result<Structures>
  {
    match GetObject(store, fn)
    case Failure(_) => Success(NoStructures)
    case Success(text) => StructureData(text.lines, idx).result
  }

  /** One structure line, just scanned, on the scanner. */
  method ReadStructureLine(sc: Scanner, line: string, s: Structures) returns (r: Result<Structures>)
    requires sc.Valid() && 0 < sc.pos && sc.lines[sc.pos - 1] == line && HasPrefix(line, TypeLineKey)
    modifies sc
    ensures sc.Valid()
    ensures Step(r, sc.pos) == TypeLineStep(sc.lines, old(sc.pos) - 1, s)
  {
    var data := TypeFields(line);
    var structureType := Atoi(TrimSpace(data[0]));
    if structureType.Failure? {
      r := Failure(structureType.error);
    } else if structureType.value == 3 {
      r := ReadBridgeStructure(sc, data, s);
    } else {
      r := Success(Tally(s, structureType.value));
    }
  }

  /** A structure line of type 3: the bridge block after it is read and the bridge
      counted in. */
  method ReadBridgeStructure(sc: Scanner, data: seq<string>, s: Structures) returns (r: Result<Structures>)
    requires sc.Valid()
    modifies sc
    ensures sc.Valid()
    ensures Step(r, sc.pos) == WithBridge(s, BridgeBlock(sc.lines, old(sc.pos), data))
  {
    var bridge := GetBridgeData(sc, data);
    if bridge.Failure? {
      return Failure(bridge.error);
    }
    var bData := s.bridgeData;
    return Success(s.(bridgeData := BridgeData(bData.numBridges + 1, bData.bridges + [bridge.value])));
  }

  /** The scan at a line that is not a reach line: the line is skipped or read as a
      structure line. */
  lemma StructureScanStep(lines: seq<Line>, p: nat, q: nat, s: Structures)
    requires p < |lines| && q == p + 1 && !HasPrefix(lines[p], RiverReachKey)
    ensures StructureScan(lines, p, s)
      == if !HasPrefix(lines[p], TypeLineKey) then StructureScan(lines, q, s)
         else
           var t := TypeLineStep(lines, p, s);
           if t.result.Failure? then t else StructureScan(lines, t.next, t.result.value)
  {
  }

  /** The loop of getHydraulicStructureData after the reach line, on the scanner. */
  method ScanStructures(sc: Scanner, s0: Structures) returns (r: Result<Structures>)
    requires sc.Valid()
    modifies sc
    ensures sc.Valid()
    ensures Step(r, sc.pos) == StructureScan(sc.lines, old(sc.pos), s0)
  {
    var structures := s0;
    while true
      invariant sc.Valid()
      invariant StructureScan(sc.lines, old(sc.pos), s0) == StructureScan(sc.lines, sc.pos, structures)
      decreases |sc.lines| - sc.pos
    {
      ghost var p := sc.pos;
      var ok := sc.Scan();
      if !ok {
        return Success(structures);
      }
      var line := sc.text;
      if HasPrefix(line, RiverReachKey) {
        return Success(structures);
      }
      StructureScanStep(sc.lines, p, sc.pos, structures);
      if HasPrefix(line, TypeLineKey) {
        var t := ReadStructureLine(sc, line, structures);
        if t.Failure? {
          return Failure(t.error);
        }
        structures := t.value;
      }
    }
  }

  method GetHydraulicStructureData(store: Bucket, fn: string, idx: nat) returns (r: Result<Structures>)
    ensures r == HydraulicStructureData(store, fn, idx)
  {
    var newf := GetObject(store, fn);
    if newf.Failure? {
      return Success(NoStructures);
    }
    var hsSc := new Scanner(newf.value.lines);
    var i := 0;
    while i < idx
      invariant hsSc.Valid() && hsSc.lines == newf.value.lines
      invariant i == hsSc.pos && i <= idx
      decreases idx - i
    {
      var ok := hsSc.Scan();
      if !ok {
        return Success(NoStructures);
      }
      i := i + 1;
    }
    var ok := hsSc.Scan();
    if !ok {
      return Success(NoStructures);
    }
    var line := hsSc.text;
    if '=' !in line {
      return Failure(Panic(IndexPanic));
    }
    var riverReach := Split(RightOfEquals(line), ',');
    if |riverReach| < 2 {
      return Failure(Panic(IndexPanic));
    }
    r := ScanStructures(hsSc, NoStructures.(river := TrimSpace(riverReach[0]), reach := TrimSpace(riverReach[1])));
  }

  /** Every bridge found is counted once: the bridge count always equals the number of
      bridges kept. */
  lemma {:induction false} BridgesCounted(lines: seq<Line>, pos: nat, s: Structures)
    requires pos <= |lines|
    requires s.bridgeData.numBridges == |s.bridgeData.bridges|
    ensures var r := StructureScan(lines, pos, s);
      r.result.Success? ==> r.result.value.bridgeData.numBridges == |r.result.value.bridgeData.bridges|
    decreases |lines| - pos
  {
    if pos < |lines| && !HasPrefix(lines[pos], RiverReachKey) {
      if !HasPrefix(lines[pos], TypeLineKey) {
        BridgesCounted(lines, pos + 1, s);
      } else {
        var t := TypeLineStep(lines, pos, s);
        if t.result.Success? {
          BridgesCounted(lines, t.next, t.result.value);
        }
      }
    }
  }

  /** getHydraulicStructureData: a file that cannot be fetched, or an index past its end,
      gives an empty record and no error; a line at `idx` without '=' or without a second
      comma field panics; otherwise a record read names the trimmed first and second
      fields as river and reach, and counts every bridge it keeps. */
  lemma StructureRecord(store: Bucket, fn: string, idx: nat)
    ensures GetObject(store, fn).Failure? ==> HydraulicStructureData(store, fn, idx) == Success(NoStructures)
    ensures GetObject(store, fn).Success? ==>
      var lines := GetObject(store, fn).value.lines;
      var r := HydraulicStructureData(store, fn, idx);
      (idx >= |lines| ==> r == Success(NoStructures)) &&
      (idx < |lines| && '=' !in lines[idx] ==> r == Failure(Panic(IndexPanic))) &&
      (idx < |lines| && '=' in lines[idx] ==>
        var fields := Split(RightOfEquals(lines[idx]), ',');
        (|fields| < 2 ==> r == Failure(Panic(IndexPanic))) &&
        (|fields| >= 2 && r.Success? ==>
          r.value.river == TrimSpace(fields[0]) && r.value.reach == TrimSpace(fields[1]) &&
          CountedIn(lines, StructureVisited(lines, idx + 1), NoStructures.(river := r.value.river, reach := r.value.reach), r.value) &&
          r.value.bridgeData.numBridges == |r.value.bridgeData.bridges|))
  {
    if GetObject(store, fn).Success? {
      var lines := GetObject(store, fn).value.lines;
      if idx < |lines| && '=' in lines[idx] {
        var fields := Split(RightOfEquals(lines[idx]), ',');
        if |fields| >= 2 {
          var s := NoStructures.(river := TrimSpace(fields[0]), reach := TrimSpace(fields[1]));
          StructureScanCounts(lines, idx + 1, s);
          BridgesCounted(lines, idx + 1, s);
        }
      }
    }
  }

  /** Whether `line` is a structure line of type `code`. */
  predicate OfType(line: string, code: int)
  {
    HasPrefix(line, TypeLineKey) && TypeCode(line) == Success(code)
  }

  /** The lines the loop of getHydraulicStructureData tests after the reach's own line,
      from `pos`, in order: the lines of a bridge block are read by the bridge reader
      and passed over, and the loop stops at the next reach line. */
  function StructureVisited(lines: seq<Line>, pos: nat): (v: seq<nat>)
    requires pos <= |lines|
    ensures LinesFrom(lines, v, pos)
    ensures v == [] <==> pos == |lines|
    ensures v != [] ==> v[0] == pos
    ensures forall i | 0 <= i < |v| - 1 :: !HasPrefix(lines[v[i]], RiverReachKey)
    decreases |lines| - pos
  {
    if pos == |lines| then []
    else if HasPrefix(lines[pos], RiverReachKey) then [pos]
    else [pos] + StructureVisited(lines, StructureNext(lines, pos))
  }

  /** Whether the loop of getHydraulicStructureData, having tested line `i`, may test
      line `j` next: the following line, or the one after the bridge block of a
      structure line of type 3. */
  predicate StructureGap(lines: seq<Line>, i: nat, j: nat)
  {
    j == i + 1 ||
    (i < |lines| && OfType(lines[i], 3) && j == BridgeBlock(lines, i + 1, TypeFields(lines[i])).next)
  }

  /** The loop passes over the lines of bridge blocks and no others, and it tests
      lines up to the next reach line or to the end of the file. */
  lemma {:induction false} StructureVisitedGaps(lines: seq<Line>, pos: nat)
    requires pos <= |lines|
    ensures var v := StructureVisited(lines, pos);
      (forall k | 0 <= k < |v| - 1 :: StructureGap(lines, v[k], v[k + 1])) &&
      (v != [] ==> HasPrefix(lines[v[|v| - 1]], RiverReachKey) || StructureGap(lines, v[|v| - 1], |lines|))
    decreases |lines| - pos
  {
    if pos < |lines| && !HasPrefix(lines[pos], RiverReachKey) {
      var next := StructureNext(lines, pos);
      StructureVisitedGaps(lines, next);
      var v, w := StructureVisited(lines, pos), StructureVisited(lines, next);
      assert v == [pos] + w;
      assert StructureGap(lines, pos, next);
      forall k | 0 <= k < |v| - 1
        ensures StructureGap(lines, v[k], v[k + 1])
      {
        if k > 0 { assert v[k] == w[k - 1] && v[k + 1] == w[k]; }
      }
      if w != [] { assert v[|v| - 1] == w[|w| - 1]; }
    }
  }

  /** The line the loop tests after line `pos`: the one after the bridge block for a
      structure line of type 3, the next one otherwise. */
  function StructureNext(lines: seq<Line>, pos: nat): (next: nat)
    requires pos < |lines|
    ensures pos < next <= |lines|
  {
    if OfType(lines[pos], 3) then BridgeBlock(lines, pos + 1, TypeFields(lines[pos])).next else pos + 1
  }

  /** The record after line `pos` of the loop, when that line's reader does not fail. */
  function LineRecord(lines: seq<Line>, pos: nat, s: Structures): Structures
    requires pos < |lines|
  {
    var line, bd := lines[pos], s.bridgeData;
    if OfType(line, 3) then s.(bridgeData := BridgeData(bd.numBridges + 1, bd.bridges + BridgeAt(lines, pos)))
    else if HasPrefix(line, TypeLineKey) && TypeCode(line).Success? then Tally(s, TypeCode(line).value)
    else s
  }

  /** How many of the lines at the indices `v` are structure lines of type `code`. */
  function CountCodeAmong(lines: seq<Line>, v: seq<nat>, code: int): nat
  {
    if v == [] then 0
    else (if v[0] < |lines| && OfType(lines[v[0]], code) then 1 else 0) + CountCodeAmong(lines, v[1..], code)
  }

  /** The bridge a structure line of type 3 at `i` reads, if it reads one. */
  function BridgeAt(lines: seq<Line>, i: nat): seq<Bridge>
  {
    if i < |lines| && OfType(lines[i], 3) && BridgeBlock(lines, i + 1, TypeFields(lines[i])).result.Success? then
      [BridgeBlock(lines, i + 1, TypeFields(lines[i])).result.value]
    else []
  }

  /** The bridges the structure lines of type 3 at the indices `v` read, in order. */
  function BridgesAmong(lines: seq<Line>, v: seq<nat>): seq<Bridge>
  {
    if v == [] then [] else BridgeAt(lines, v[0]) + BridgesAmong(lines, v[1..])
  }

  /** `c` is `s` with the structure lines at the indices `v` counted in: one cross
      section, culvert, bridge and inline structure more per line of type 1, 2, 3 and
      5, the bridges those type 3 lines read appended in order, the names unchanged. */
  predicate CountedIn(lines: seq<Line>, v: seq<nat>, s: Structures, c: Structures)
  {
    c.numXS == s.numXS + CountCodeAmong(lines, v, 1) &&
    c.numCulverts == s.numCulverts + CountCodeAmong(lines, v, 2) &&
    c.numInlines == s.numInlines + CountCodeAmong(lines, v, 5) &&
    c.bridgeData.numBridges == s.bridgeData.numBridges + CountCodeAmong(lines, v, 3) &&
    c.bridgeData.bridges == s.bridgeData.bridges + BridgesAmong(lines, v) &&
    c.river == s.river && c.reach == s.reach
  }

  /** The record a loop of getHydraulicStructureData leaves is the one it starts with,
      the structure lines it tests counted in; and it stops just after the next reach
      line, or at the end of the input. */
  lemma {:induction false} StructureScanCounts(lines: seq<Line>, pos: nat, s: Structures)
    requires pos <= |lines|
    ensures var r, v := StructureScan(lines, pos, s), StructureVisited(lines, pos);
      r.result.Success? ==>
        CountedIn(lines, v, s, r.result.value) &&
        r.next == (if v != [] && HasPrefix(lines[v[|v| - 1]], RiverReachKey) then v[|v| - 1] + 1 else |lines|)
    decreases |lines| - pos
  {
    if pos < |lines| {
      var v := StructureVisited(lines, pos);
      var r := StructureScan(lines, pos, s);
      if HasPrefix(lines[pos], RiverReachKey) {
        assert !HasPrefix(lines[pos], TypeLineKey) by {
          PrefixesDiffer(lines[pos], RiverReachKey, TypeLineKey, 0);
        }
        assert r == Step(Success(s), pos + 1) && v == [pos];
        LineRecordCounts(lines, pos, s);
        CountedInCons(lines, pos, [], v, s, s, s);
      } else {
        var next, t := StructureNext(lines, pos), LineRecord(lines, pos, s);
        var w := StructureVisited(lines, next);
        assert v == [pos] + w;
        StructureLineStep(lines, pos, s);
        StructureScanCounts(lines, next, t);
        LineRecordCounts(lines, pos, s);
        if r.result.Success? {
          CountedInCons(lines, pos, w, v, s, t, r.result.value);
        }
      }
    }
  }

  /** Counting line `pos` in, then the lines at `w`. */
  lemma CountedInCons(lines: seq<Line>, pos: nat, w: seq<nat>, v: seq<nat>, s: Structures, t: Structures, c: Structures)
    requires pos < |lines| && v == [pos] + w && CountedIn(lines, w, t, c)
    requires LineCounted(lines, pos, s, t)
    ensures CountedIn(lines, v, s, c)
    ensures v[|v| - 1] == if w == [] then pos else w[|w| - 1]
  {
    assert v[|v| - 1] == if w == [] then pos else w[|w| - 1];
    ConsCounts(lines, pos, w, v, 1);
    ConsCounts(lines, pos, w, v, 2);
    ConsCounts(lines, pos, w, v, 5);
    ConsCounts(lines, pos, w, v, 3);
    BridgesCons(lines, pos, w, v);
    AppendAssociates(s.bridgeData.bridges, BridgeAt(lines, pos), BridgesAmong(lines, w));
  }

  /** The bridges over `pos` followed by the indices `w`. */
  lemma BridgesCons(lines: seq<Line>, pos: nat, w: seq<nat>, v: seq<nat>)
    requires v == [pos] + w
    ensures BridgesAmong(lines, v) == BridgeAt(lines, pos) + BridgesAmong(lines, w)
  {
    assert v[1..] == w;
  }

  /** Appending is associative: stated apart so that the cons lemmas regroup the
      bridges read without unfolding the bridge reader. */
  lemma AppendAssociates<T>(a: seq<T>, b: seq<T>, c: seq<T>)
    ensures (a + b) + c == a + (b + c)
  {
  }

  /** One line the loop tests, other than a reach line: the loop goes on at the next
      line it tests with the record that line leaves, unless the line's reader fails. */
  lemma StructureLineStep(lines: seq<Line>, pos: nat, s: Structures)
    requires pos < |lines| && !HasPrefix(lines[pos], RiverReachKey)
    ensures StructureScan(lines, pos, s).result.Success? ==>
      StructureScan(lines, pos, s) == StructureScan(lines, StructureNext(lines, pos), LineRecord(lines, pos, s))
  {
    var line := lines[pos];
    if HasPrefix(line, TypeLineKey) && TypeCode(line).Success? {
      if TypeCode(line).value == 3 {
        assert TypeLineStep(lines, pos, s) == WithBridge(s, BridgeBlock(lines, pos + 1, TypeFields(line)));
      } else {
        assert TypeLineStep(lines, pos, s) == Step(Success(Tally(s, TypeCode(line).value)), pos + 1);
      }
    }
  }

  /** What one line does to the record: one more of the kind its type code names, the
      bridge it reads appended, the names unchanged. */
  lemma LineRecordCounts(lines: seq<Line>, pos: nat, s: Structures)
    requires pos < |lines|
    ensures LineCounted(lines, pos, s, LineRecord(lines, pos, s))
  {
  }

  /** `t` is `s` with line `pos` counted in: one more of the kind its type code names,
      the bridge it reads appended, the names unchanged. */
  predicate LineCounted(lines: seq<Line>, pos: nat, s: Structures, t: Structures)
    requires pos < |lines|
  {
    var line := lines[pos];
    t.numXS == s.numXS + (if OfType(line, 1) then 1 else 0) &&
    t.numCulverts == s.numCulverts + (if OfType(line, 2) then 1 else 0) &&
    t.numInlines == s.numInlines + (if OfType(line, 5) then 1 else 0) &&
    t.bridgeData.numBridges == s.bridgeData.numBridges + (if OfType(line, 3) then 1 else 0) &&
    t.bridgeData.bridges == s.bridgeData.bridges + BridgeAt(lines, pos) &&
    t.river == s.river && t.reach == s.reach
  }

  /** The counts over `pos` followed by the indices `w`. */
  lemma ConsCounts(lines: seq<Line>, pos: nat, w: seq<nat>, v: seq<nat>, code: int)
    requires pos < |lines| && v == [pos] + w
    ensures CountCodeAmong(lines, v, code) == (if OfType(lines[pos], code) then 1 else 0) + CountCodeAmong(lines, w, code)
  {
    assert v[1..] == w;
  }

  /** Where the geometry scan stands: the next line to read, the record so far and
      whether the file header is still being read. */
  datatype GeomState = GeomState(next: nat, meta: GeomFileContents, header: bool)

  /** One line of getGeomData, the line at `pos` (which is also `idx`): "Geom Title="
      and "Program Version=" lines set their field; a description block is read, up to
      its end marker, only while the header lasts; a reach line adds the structures
      record of that reach and ends the header, as a storage area line does. */
  function GeomLine(store: Bucket, fn: string, lines: seq<Line>, pos: nat, meta: GeomFileContents, header: bool)
    : (r: Result<GeomState>)
    requires pos < |lines|
    ensures r.Success? ==> pos < r.value.next <= |lines|
    ensures r.Success? ==> r.value.meta.path == meta.path && r.value.meta.fileExt == meta.fileExt
  {
    var line := lines[pos];
    if HasPrefix(line, "Geom Title=") then
      PrefixChar(line, "Geom Title=", '=');
      Success(GeomState(pos + 1, meta.(geomTitle := RightOfEquals(line)), header))
    else if HasPrefix(line, "Program Version=") then
      PrefixChar(line, "Program Version=", '=');
      Success(GeomState(pos + 1, meta.(programVersion := RightOfEquals(line)), header))
    else if HasPrefix(line, "BEGIN GEOM DESCRIPTION:") && header then
      Success(GeomState(DescriptionEnd(lines, pos + 1, "END GEOM DESCRIPTION:"),
        meta.(description := meta.description + DescriptionText(lines, pos + 1, "END GEOM DESCRIPTION:")), header))
    else if HasPrefix(line, "BEGIN GEOM DESCRIPTION:") then Success(GeomState(pos + 1, meta, header))
    else if HasPrefix(line, RiverReachKey) then
      match HydraulicStructureData(store, fn, pos)
      case Failure(e) => Failure(e)
      case Success(st) => Success(GeomState(pos + 1, meta.(structures := meta.structures + [st]), false))
    else Success(GeomState(pos + 1, meta, header && !HasPrefix(line, "Storage Area=")))
  }

  /** The loop of getGeomData from `pos`: line by line to the end of the file; the first
      error stops it. */
  function GeomScan(store: Bucket, fn: string, lines: seq<Line>, pos: nat, meta: GeomFileContents, header: bool)
    : Result<GeomFileContents>
    requires pos <= |lines|
    decreases |lines| - pos
  {
    if pos == |lines| then Success(meta)
    else
      match GeomLine(store, fn, lines, pos, meta, header)
      case Failure(e) => Failure(e)
      case Success(st) => GeomScan(store, fn, lines, st.next, st.meta, st.header)
  }

  /** getGeomData: the record of one geometry file, or the error that stopped it. */
  function GeomData(store: Bucket, fn: string): Result<GeomFileContents>
  {
    var meta := GeomFileContents(fn, Ext(fn), "", "", "", []);
    match GetObject(store, fn)
    case Failure(e) => Failure(e)
    case Success(text) => GeomScan(store, fn, text.lines, 0, meta, true)
  }

  method ReadGeomFile(store: Bucket, fn: string) returns (r: Result<GeomFileContents>)
    ensures r == GeomData(store, fn)
  {
    var meta := GeomFileContents(fn, Ext(fn), "", "", "", []);
    var f := GetObject(store, fn);
    if f.Failure? {
      return Failure(f.error);
    }
    var sc := new Scanner(f.value.lines);
    var header := true;
    var idx := 0;
    while true
      invariant sc.Valid() && sc.lines == f.value.lines
      invariant idx == sc.pos
      invariant GeomData(store, fn) == GeomScan(store, fn, sc.lines, sc.pos, meta, header)
      decreases |sc.lines| - sc.pos
    {
      var ok := sc.Scan();
      if !ok {
        return Success(meta);
      }
      var line := sc.text;
      if HasPrefix(line, "Geom Title=") {
        PrefixChar(line, "Geom Title=", '=');
        meta := meta.(geomTitle := RightOfEquals(line));
      } else if HasPrefix(line, "Program Version=") {
        PrefixChar(line, "Program Version=", '=');
        meta := meta.(programVersion := RightOfEquals(line));
      } else if HasPrefix(line, "BEGIN GEOM DESCRIPTION:") {
        if header {
          var description;
          description, idx := GetDescription(sc, idx, "END GEOM DESCRIPTION:");
          meta := meta.(description := meta.description + description);
        }
      } else if HasPrefix(line, RiverReachKey) {
        var structures := GetHydraulicStructureData(store, fn, idx);
        if structures.Failure? {
          return Failure(structures.error);
        }
        meta := meta.(structures := meta.structures + [structures.value]);
        header := false;
      } else if HasPrefix(line, "Storage Area=") {
        header := false;
      }
      idx := idx + 1;
    }
  }

  /** Once the header has ended, the description never changes. */
  lemma {:induction false} DescriptionFrozen(store: Bucket, fn: string, lines: seq<Line>, pos: nat, meta: GeomFileContents)
    requires pos <= |lines|
    ensures var r := GeomScan(store, fn, lines, pos, meta, false);
      r.Success? ==> r.value.description == meta.description
    decreases |lines| - pos
  {
    if pos < |lines| {
      var st := GeomLine(store, fn, lines, pos, meta, false);
      if st.Success? {
        DescriptionFrozen(store, fn, lines, st.value.next, st.value.meta);
      }
    }
  }

  /** The text a tested line `i` adds to the description: that of the block it opens
      while the header lasts, and nothing otherwise. */
  function HeaderDescriptionAt(lines: seq<Line>, i: nat, header: bool): string
  {
    if i < |lines| && header && HasPrefix(lines[i], "BEGIN GEOM DESCRIPTION:") then
      DescriptionText(lines, i + 1, "END GEOM DESCRIPTION:")
    else ""
  }

  /** The text the description blocks opened at the tested lines `v` add, in order,
      the header lasting from `header` up to the first reach or storage area line. */
  function HeaderDescriptions(lines: seq<Line>, v: seq<nat>, header: bool): string
  {
    if v == [] then ""
    else
      var h := if v[0] < |lines| then HeaderAfter(lines[v[0]], header) else header;
      HeaderDescriptionAt(lines, v[0], header) + HeaderDescriptions(lines, v[1..], h)
  }

  lemma HeaderDescriptionsCons(lines: seq<Line>, pos: nat, w: seq<nat>, header: bool, d: string)
    requires pos < |lines|
    ensures d + HeaderDescriptions(lines, [pos] + w, header)
      == (d + HeaderDescriptionAt(lines, pos, header)) + HeaderDescriptions(lines, w, HeaderAfter(lines[pos], header))
  {
    assert ([pos] + w)[1..] == w;
  }

  /** One line of getGeomData, as the description sees it: a block opened while the
      header lasts adds its text, and any other line adds nothing. */
  lemma GeomDescriptionStep(store: Bucket, fn: string, lines: seq<Line>, pos: nat, meta: GeomFileContents, header: bool)
    requires pos < |lines|
    ensures var st := GeomLine(store, fn, lines, pos, meta, header);
      st.Success? ==>
        st.value.next == GeomNext(lines, pos, header) && st.value.header == HeaderAfter(lines[pos], header) &&
        st.value.meta.description == meta.description + HeaderDescriptionAt(lines, pos, header)
  {
    GeomLineStep(store, fn, lines, pos, meta, header);
    var line := lines[pos];
    PrefixFirst(line, "Geom Title=");
    PrefixFirst(line, "Program Version=");
    PrefixFirst(line, "BEGIN GEOM DESCRIPTION:");
    if !(header && HasPrefix(line, "BEGIN GEOM DESCRIPTION:")) {
      assert meta.description + HeaderDescriptionAt(lines, pos, header) == meta.description;
    }
  }

  /** The description getGeomData leaves is the old one followed by the text of every
      description block a tested line opens while the header lasts, in file order. */
  lemma {:induction false} GeomDescriptionsGathered(store: Bucket, fn: string, lines: seq<Line>, pos: nat,
                                                    meta: GeomFileContents, header: bool)
    requires pos <= |lines|
    ensures var r := GeomScan(store, fn, lines, pos, meta, header);
      r.Success? ==>
        r.value.description == meta.description + HeaderDescriptions(lines, GeomVisited(lines, pos, header), header)
    decreases |lines| - pos
  {
    if pos < |lines| {
      var st := GeomLine(store, fn, lines, pos, meta, header);
      if st.Success? {
        GeomDescriptionStep(store, fn, lines, pos, meta, header);
        GeomDescriptionsGathered(store, fn, lines, st.value.next, st.value.meta, st.value.header);
        HeaderDescriptionsCons(lines, pos, GeomVisited(lines, st.value.next, st.value.header), header, meta.description);
      }
    }
  }

  /** getGeomData: the description of a geometry file is the text of the description
      blocks its loop tests before the first reach or storage area line, in order. */
  lemma GeomFileDescription(store: Bucket, fn: string)
    requires GetObject(store, fn).Success?
    ensures var r, lines := GeomData(store, fn), GetObject(store, fn).value.lines;
      r.Success? ==> r.value.description == HeaderDescriptions(lines, GeomVisited(lines, 0, true), true)
  {
    var lines := GetObject(store, fn).value.lines;
    var meta := GeomFileContents(fn, Ext(fn), "", "", "", []);
    GeomDescriptionsGathered(store, fn, lines, 0, meta, true);
    assert GeomData(store, fn) == GeomScan(store, fn, lines, 0, meta, true);
  }

  /** A reach line is none of the other lines the geometry scan looks for. */
  lemma ReachLineKind(line: string)
    requires HasPrefix(line, RiverReachKey)
    ensures !HasPrefix(line, "Geom Title=") && !HasPrefix(line, "Program Version=")
    ensures !HasPrefix(line, "BEGIN GEOM DESCRIPTION:") && !HasPrefix(line, "Storage Area=")
  {
    assert line[0] == line[..|RiverReachKey|][0] == 'R';
  }

  /** Whether the header still lasts after `line`: a reach line or a storage area line
      ends it. */
  function HeaderAfter(line: string, header: bool): bool
  {
    header && !HasPrefix(line, RiverReachKey) && !HasPrefix(line, "Storage Area=")
  }

  /** The line getGeomData tests after line `pos`: while the header lasts, the one after
      a description block that opens there; otherwise the next one. */
  function GeomNext(lines: seq<Line>, pos: nat, header: bool): (next: nat)
    requires pos < |lines|
    ensures pos < next <= |lines|
  {
    if header && HasPrefix(lines[pos], "BEGIN GEOM DESCRIPTION:") then DescriptionEnd(lines, pos + 1, "END GEOM DESCRIPTION:")
    else pos + 1
  }

  /** The lines the loop of getGeomData tests from `pos`, in order: every line, except
      that while the header lasts the lines of a description block are read by the
      description reader and passed over. */
  function GeomVisited(lines: seq<Line>, pos: nat, header: bool): (v: seq<nat>)
    requires pos <= |lines|
    ensures LinesFrom(lines, v, pos)
    ensures v == [] <==> pos == |lines|
    ensures v != [] ==> v[0] == pos
    decreases |lines| - pos
  {
    if pos == |lines| then []
    else [pos] + GeomVisited(lines, GeomNext(lines, pos, header), HeaderAfter(lines[pos], header))
  }

  /** Whether the loop of getGeomData, having tested line `i`, may test line `j` next:
      the following line, or the one after the description block line `i` opens. */
  predicate GeomGap(lines: seq<Line>, i: nat, j: nat)
  {
    j == i + 1 ||
    (i < |lines| && HasPrefix(lines[i], "BEGIN GEOM DESCRIPTION:") && j == DescriptionEnd(lines, i + 1, "END GEOM DESCRIPTION:"))
  }

  /** The loop passes over the lines of description blocks and no others: each line
      it tests is followed by the next one or by the line after the block it opens,
      up to the end of the file. */
  lemma {:induction false} GeomVisitedGaps(lines: seq<Line>, pos: nat, header: bool)
    requires pos <= |lines|
    ensures var v := GeomVisited(lines, pos, header);
      (forall k | 0 <= k < |v| - 1 :: GeomGap(lines, v[k], v[k + 1])) &&
      (v != [] ==> GeomGap(lines, v[|v| - 1], |lines|))
    decreases |lines| - pos
  {
    if pos < |lines| {
      var next, h := GeomNext(lines, pos, header), HeaderAfter(lines[pos], header);
      GeomVisitedGaps(lines, next, h);
      var v, w := GeomVisited(lines, pos, header), GeomVisited(lines, next, h);
      assert v == [pos] + w;
      assert GeomGap(lines, pos, next);
      forall k | 0 <= k < |v| - 1
        ensures GeomGap(lines, v[k], v[k + 1])
      {
        if k > 0 { assert v[k] == w[k - 1] && v[k + 1] == w[k]; }
      }
      if w != [] { assert v[|v| - 1] == w[|w| - 1]; }
    }
  }

  /** The reach lines among the lines at the indices `v`, in order. */
  function ReachesAmong(lines: seq<Line>, v: seq<nat>): (r: seq<nat>)
    ensures forall i | 0 <= i < |r| :: r[i] in v && r[i] < |lines| && HasPrefix(lines[r[i]], RiverReachKey)
  {
    if v == [] then []
    else (if v[0] < |lines| && HasPrefix(lines[v[0]], RiverReachKey) then [v[0]] else []) + ReachesAmong(lines, v[1..])
  }

  /** The first character of a text a non-empty prefix begins is the prefix's. */
  lemma PrefixFirst(s: string, p: string)
    ensures HasPrefix(s, p) && |p| > 0 ==> |s| > 0 && s[0] == p[0]
  {
    if HasPrefix(s, p) && |p| > 0 {
      assert s[0] == s[..|p|][0];
    }
  }

  /** What one line of getGeomData does: the loop goes on at the next line it tests, with
      the header ended by a reach or storage area line; a title or program version line
      sets that field to its value; a reach line whose record reads appends that record;
      nothing else changes those fields. */
  lemma GeomLineStep(store: Bucket, fn: string, lines: seq<Line>, pos: nat, meta: GeomFileContents, header: bool)
    requires pos < |lines|
    ensures var line, st := lines[pos], GeomLine(store, fn, lines, pos, meta, header);
      st.Success? ==>
        st.value.next == GeomNext(lines, pos, header) && st.value.header == HeaderAfter(line, header) &&
        st.value.meta.geomTitle ==
          (match KeyedValue(line, "Geom Title=") case Some(x) => x case None => meta.geomTitle) &&
        st.value.meta.programVersion ==
          (match KeyedValue(line, "Program Version=") case Some(x) => x case None => meta.programVersion) &&
        (HasPrefix(line, RiverReachKey) ==> HydraulicStructureData(store, fn, pos).Success?) &&
        st.value.meta.structures == meta.structures +
          (if HasPrefix(line, RiverReachKey) then [HydraulicStructureData(store, fn, pos).value] else [])
  {
    var line := lines[pos];
    PrefixFirst(line, "Geom Title=");
    PrefixFirst(line, "Program Version=");
    PrefixFirst(line, "BEGIN GEOM DESCRIPTION:");
    PrefixFirst(line, RiverReachKey);
    PrefixFirst(line, "Storage Area=");
  }

  /** The structures record getHydraulicStructureData reads for the reach at each index. */
  ghost function ReachRecord(store: Bucket, fn: string): (r: nat -> Result<Structures>)
    ensures forall idx: nat :: r(idx) == HydraulicStructureData(store, fn, idx)
  {
    (idx: nat) => HydraulicStructureData(store, fn, idx)
  }

  /** Which records `recs` holds from `n` on: `record` of the indices in `reaches`, in
      order. */
  ghost predicate RecordsBy(record: nat -> Result<Structures>, recs: seq<Structures>, n: nat, reaches: seq<nat>)
  {
    |recs| == n + |reaches| &&
    forall i | 0 <= i < |reaches| :: record(reaches[i]) == Success(recs[n + i])
  }

  /** Which records `recs` holds from `n` on: the structures records of the reaches at
      `reaches`, in order. */
  ghost predicate RecordsReaches(store: Bucket, fn: string, recs: seq<Structures>, n: nat, reaches: seq<nat>)
  {
    RecordsBy(ReachRecord(store, fn), recs, n, reaches)
  }

  /** The inductive step of ReachesRecorded: `after` is the list of records after line
      `pos`, and `recs` holds it followed by the records of the reaches among the lines
      tested after it, `w`. */
  lemma ReachesStep(record: nat -> Result<Structures>, lines: seq<Line>, pos: nat, w: seq<nat>,
                    before: seq<Structures>, after: seq<Structures>, recs: seq<Structures>)
    requires pos < |lines|
    requires HasPrefix(lines[pos], RiverReachKey) ==> record(pos).Success?
    requires after == before +
      (if HasPrefix(lines[pos], RiverReachKey) then [record(pos).value] else [])
    requires |recs| >= |after| && recs[..|after|] == after
    requires RecordsBy(record, recs, |after|, ReachesAmong(lines, w))
    ensures var n := |before|;
      |recs| >= n && recs[..n] == before && RecordsBy(record, recs, n, ReachesAmong(lines, [pos] + w))
  {
    var x: seq<nat> := if HasPrefix(lines[pos], RiverReachKey) then [pos] else [];
    ReachesCons(lines, pos, w);
    RecordsByCons(record, recs, before, after, x, ReachesAmong(lines, w));
  }

  /** The reach lines among `[pos] + w`: line `pos` if it is one, then those among `w`. */
  lemma ReachesCons(lines: seq<Line>, pos: nat, w: seq<nat>)
    requires pos < |lines|
    ensures ReachesAmong(lines, [pos] + w) == (if HasPrefix(lines[pos], RiverReachKey) then [pos] else []) + ReachesAmong(lines, w)
  {
    assert ([pos] + w)[1..] == w;
  }

  /** Records for the indices `later` from `|after|` on, where `after` is `before` with
      the record of the index in `x` (at most one) appended, are records for `x + later`
      from `|before|` on. */
  lemma RecordsByCons(record: nat -> Result<Structures>, recs: seq<Structures>, before: seq<Structures>,
                      after: seq<Structures>, x: seq<nat>, later: seq<nat>)
    requires |x| <= 1 && (x != [] ==> record(x[0]).Success?)
    requires after == before + (if x == [] then [] else [record(x[0]).value])
    requires |recs| >= |after| && recs[..|after|] == after
    requires RecordsBy(record, recs, |after|, later)
    ensures |recs| >= |before| && recs[..|before|] == before && RecordsBy(record, recs, |before|, x + later)
  {
    var n := |before|;
    var reaches := x + later;
    assert after[..n] == before;
    assert recs[..n] == recs[..|after|][..n];
    if x != [] {
      assert recs[n] == recs[..|after|][n] == after[n];
      forall i | 0 <= i < |reaches|
        ensures record(reaches[i]) == Success(recs[n + i])
      {
        if i > 0 {
          assert reaches[i] == later[i - 1] && n + i == (n + 1) + (i - 1);
        }
      }
    } else {
      assert reaches == later;
    }
  }

  /** A geometry file yields one structures record per reach line the loop tests, in
      file order, each the record of that reach. */
  lemma {:induction false} ReachesRecorded(store: Bucket, fn: string, lines: seq<Line>, pos: nat,
                                           meta: GeomFileContents, header: bool)
    requires pos <= |lines|
    ensures var r := GeomScan(store, fn, lines, pos, meta, header);
      var n := |meta.structures|;
      r.Success? ==>
        |r.value.structures| >= n && r.value.structures[..n] == meta.structures &&
        RecordsReaches(store, fn, r.value.structures, n, ReachesAmong(lines, GeomVisited(lines, pos, header)))
    decreases |lines| - pos
  {
    if pos < |lines| {
      var st := GeomLine(store, fn, lines, pos, meta, header);
      if st.Success? {
        GeomLineStep(store, fn, lines, pos, meta, header);
        var g := st.value;
        ReachesRecorded(store, fn, lines, g.next, g.meta, g.header);
        var r := GeomScan(store, fn, lines, g.next, g.meta, g.header);
        if r.Success? {
          ReachesStep(ReachRecord(store, fn), lines, pos, GeomVisited(lines, g.next, g.header),
                      meta.structures, g.meta.structures, r.value.structures);
        }
      }
    }
  }

  /** getGeomData: the record names the file and its extension and holds one structures
      record per reach line the loop tests, in order. */
  lemma GeomFileReaches(store: Bucket, fn: string)
    requires GetObject(store, fn).Success?
    ensures var r := GeomData(store, fn);
      r.Success? ==>
        r.value.path == fn && r.value.fileExt == Ext(fn) &&
        RecordsReaches(store, fn, r.value.structures, 0,
                       ReachesAmong(GetObject(store, fn).value.lines, GeomVisited(GetObject(store, fn).value.lines, 0, true)))
  {
    var lines := GetObject(store, fn).value.lines;
    var meta := GeomFileContents(fn, Ext(fn), "", "", "", []);
    ReachesRecorded(store, fn, lines, 0, meta, true);
    PathKept(store, fn, lines, 0, meta, true);
    assert GeomData(store, fn) == GeomScan(store, fn, lines, 0, meta, true);
  }

  /** The scan never changes the file's path and extension. */
  lemma {:induction false} PathKept(store: Bucket, fn: string, lines: seq<Line>, pos: nat,
                                    meta: GeomFileContents, header: bool)
    requires pos <= |lines|
    ensures var r := GeomScan(store, fn, lines, pos, meta, header);
      r.Success? ==> r.value.path == meta.path && r.value.fileExt == meta.fileExt
    decreases |lines| - pos
  {
    if pos < |lines| {
      var st := GeomLine(store, fn, lines, pos, meta, header);
      if st.Success? {
        PathKept(store, fn, lines, st.value.next, st.value.meta, st.value.header);
      }
    }
  }

  /** The title and the program version are those of the last "Geom Title=" and
      "Program Version=" lines the loop tests, and stay as they were when it tests none. */
  lemma {:induction false} LastHeaderWins(store: Bucket, fn: string, lines: seq<Line>, pos: nat,
                                          meta: GeomFileContents, header: bool)
    requires pos <= |lines|
    ensures var r, v := GeomScan(store, fn, lines, pos, meta, header), GeomVisited(lines, pos, header);
      r.Success? ==>
        r.value.geomTitle == (match LastKeyedAmong(lines, v, "Geom Title=") case Some(x) => x case None => meta.geomTitle) &&
        r.value.programVersion ==
          (match LastKeyedAmong(lines, v, "Program Version=") case Some(x) => x case None => meta.programVersion)
    decreases |lines| - pos
  {
    if pos < |lines| {
      var st := GeomLine(store, fn, lines, pos, meta, header);
      if st.Success? {
        GeomLineStep(store, fn, lines, pos, meta, header);
        LastHeaderWins(store, fn, lines, st.value.next, st.value.meta, st.value.header);
        var w := GeomVisited(lines, st.value.next, st.value.header);
        assert GeomVisited(lines, pos, header) == [pos] + w;
        LastKeyedCons(lines, pos, w, "Geom Title=");
        LastKeyedCons(lines, pos, w, "Program Version=");
      }
    }
  }

  /** A reach line or a storage area line ends the header, and the scan goes on with the
      next line. */
  lemma HeaderEnds(store: Bucket, fn: string, lines: seq<Line>, pos: nat, meta: GeomFileContents, header: bool)
    requires pos < |lines| && (HasPrefix(lines[pos], RiverReachKey) || HasPrefix(lines[pos], "Storage Area="))
    ensures var st := GeomLine(store, fn, lines, pos, meta, header);
      st.Success? ==> !st.value.header && st.value.next == pos + 1
  {
    GeomLineStep(store, fn, lines, pos, meta, header);
    PrefixFirst(lines[pos], "BEGIN GEOM DESCRIPTION:");
    PrefixFirst(lines[pos], RiverReachKey);
    PrefixFirst(lines[pos], "Storage Area=");
  }
}
