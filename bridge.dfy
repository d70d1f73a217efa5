/** The bridge reader of the geometry-file parser: the high and low chord elevations
    of a bridge deck and the bridge block that follows a structure line of type 3. */
module GeomBridges {
  import opened Wrappers
  import opened GoStrings
  import opened Numbers
  import opened LineScanner
  import opened GeomReaders

  /** A slice or array index past its length. */
  const IndexPanic := "index out of range"

  /** The highest and the lowest elevation of one chord. */
  datatype ChordPair = ChordPair(max: real, min: real)

  datatype Bridge = Bridge(
    name: string,
    station: real,
    description: string,
    deckWidth: real,
    upHighChord: ChordPair,
    upLowChord: ChordPair,
    downHighChord: ChordPair,
    downLowChord: ChordPair,
    numPiers: nat)

  const NoChord := ChordPair(0.0, 0.0)
  const NoBridge := Bridge("", 0.0, "", 0.0, NoChord, NoChord, NoChord, NoChord, 0)

  /** maxValue and then minValue of an elevation list: the empty list fails at the
      maximum already. */
  function Extremes(v: seq<real>): (r: Result<ChordPair>)
    ensures r.Failure? <==> |v| == 0
    ensures r.Failure? ==> r.error == Err(EmptyMaxMsg)
    ensures r.Success? ==>
      r.value.max in v && r.value.min in v && forall x | x in v :: r.value.min <= x <= r.value.max
  {
    if |v| == 0 then Failure(Err(EmptyMaxMsg)) else Success(ChordPair(SeqMax(v), SeqMin(v)))
  }

  /** getHighLowChord: the elevation count is read from `nElevsText`; the rows it
      fills are skipped (they hold the stations), the same number of rows of high
      chord elevations follows, then as many rows of low chord elevations at the
      fixed 80/8 layout. */
  function HighLowChord(lines: seq<Line>, pos: nat, nElevsText: string, colWidth: int, valueWidth: nat)
    : (r: Step<(ChordPair, ChordPair)>)
    requires pos <= |lines| && colWidth > 0 && valueWidth > 0
    ensures pos <= r.next <= |lines|
  {
    match Atoi(TrimSpace(nElevsText))
    case Failure(e) => Step(Failure(e), pos)
    case Success(n) =>
      var nLines := NumberOfLines(n, colWidth, valueWidth);
      var high := DataBlock(lines, pos, colWidth, valueWidth, nLines, nLines);
      if high.result.Failure? then Step(Failure(high.result.error), high.next)
      else
        match Extremes(high.result.value)
        case Failure(e) => Step(Failure(e), high.next)
        case Success(hi) =>
          var low := DataBlock(lines, high.next, 80, 8, nLines, 0);
          if low.result.Failure? then Step(Failure(low.result.error), low.next)
          else
            match Extremes(low.result.value)
            case Failure(e) => Step(Failure(e), low.next)
            case Success(lo) => Step(Success((hi, lo)), low.next)
  }

  /** maxValue's result is the maximum of the list. */
  lemma MaxIsSeqMax(v: seq<real>, m: real)
    requires |v| > 0 && m in v && forall x | x in v :: x <= m
    ensures m == SeqMax(v)
  {
  }

  lemma MinIsSeqMin(v: seq<real>, m: real)
    requires |v| > 0 && m in v && forall x | x in v :: m <= x
    ensures m == SeqMin(v)
  {
  }

  /** The maximum and minimum of a block read from the scanner, as getHighLowChord
      computes them with maxValue and minValue; the first error of the two is the one
      returned. */
  method BlockExtremes(values: seq<real>) returns (r: Result<ChordPair>)
    ensures r == Extremes(values)
  {
    var max, errMax := MaxValue(values);
    var min, errMin := MinValue(values);
    var err := if errMax.Some? then errMax else errMin;
    if err.Some? {
      return Failure(err.value);
    }
    MaxIsSeqMax(values, max);
    MinIsSeqMin(values, min);
    return Success(ChordPair(max, min));
  }

  method GetHighLowChord(sc: Scanner, nElevsText: string, colWidth: int, valueWidth: nat)
    returns (r: Result<(ChordPair, ChordPair)>)
    requires sc.Valid() && colWidth > 0 && valueWidth > 0
    modifies sc
    ensures sc.Valid()
    ensures Step(r, sc.pos) == HighLowChord(sc.lines, old(sc.pos), nElevsText, colWidth, valueWidth)
  {
    var nElevs := Atoi(TrimSpace(nElevsText));
    if nElevs.Failure? {
      return Failure(nElevs.error);
    }
    var nLines := NumberOfLines(nElevs.value, colWidth, valueWidth);
    var elevHighChord := DataFromTextBlock(sc, colWidth, valueWidth, nLines, nLines);
    if elevHighChord.Failure? {
      return Failure(elevHighChord.error);
    }
    var high := BlockExtremes(elevHighChord.value);
    if high.Failure? {
      return Failure(high.error);
    }
    var elevLowChord := DataFromTextBlock(sc, 80, 8, nLines, 0);
    if elevLowChord.Failure? {
      return Failure(elevLowChord.error);
    }
    var low := BlockExtremes(elevLowChord.value);
    if low.Failure? {
      return Failure(low.error);
    }
    return Success((high.value, low.value));
  }

  /** Each chord read has its minimum at or below its maximum, and an elevation count
      that is not an integer is an error before any line is read. */
  lemma {:induction false} ChordsOrdered(lines: seq<Line>, pos: nat, nElevsText: string, colWidth: int, valueWidth: nat)
    requires pos <= |lines| && colWidth > 0 && valueWidth > 0
    ensures var r := HighLowChord(lines, pos, nElevsText, colWidth, valueWidth);
      (r.result.Success? ==> r.result.value.0.min <= r.result.value.0.max && r.result.value.1.min <= r.result.value.1.max) &&
      (Atoi(TrimSpace(nElevsText)).Failure? ==> r == Step(Failure(Atoi(TrimSpace(nElevsText)).error), pos))
  {
    var r := HighLowChord(lines, pos, nElevsText, colWidth, valueWidth);
    if r.result.Success? {
      var n := Atoi(TrimSpace(nElevsText)).value;
      var nLines := NumberOfLines(n, colWidth, valueWidth);
      var high := DataBlock(lines, pos, colWidth, valueWidth, nLines, nLines);
      var low := DataBlock(lines, high.next, 80, 8, nLines, 0);
      assert r.result.value.0 == Extremes(high.result.value).value;
      assert r.result.value.1 == Extremes(low.result.value).value;
    }
  }

  /** A count of zero elevations or fewer gives zero rows, and a block of zero rows
      never reaches its row count: the high chord read takes every remaining line. */
  lemma {:induction false} ZeroElevationsReadToEnd(lines: seq<Line>, pos: nat, nElevsText: string)
    requires pos <= |lines|
    requires Atoi(TrimSpace(nElevsText)).Success? && Atoi(TrimSpace(nElevsText)).value <= 0
    ensures var high := DataBlock(lines, pos, 80, 8, NumberOfLines(Atoi(TrimSpace(nElevsText)).value, 80, 8),
                                  NumberOfLines(Atoi(TrimSpace(nElevsText)).value, 80, 8));
      high.result.Success? ==> high.next == |lines|
  {
    var n := Atoi(TrimSpace(nElevsText)).value;
    var nLines := NumberOfLines(n, 80, 8);
    assert nLines <= 0;
    DataBlockConsumes(lines, pos, 80, 8, nLines, nLines);
  }

  /** The deck section after a "Deck Dist" line, from `p`, the line after it: a line of
      comma-separated deck values (the empty text when the input has ended) whose first
      field is the deck width and whose fifth and sixth fields are the upstream and
      downstream elevation counts, each followed by its chords. */
  function DeckStep(lines: seq<Line>, p: nat, bridge: Bridge): (r: Step<Bridge>)
    requires p <= |lines|
    ensures p <= r.next <= |lines|
  {
    var next := if p < |lines| then lines[p] else "";
    var after := if p < |lines| then p + 1 else p;
    var fields := Split(next, ',');
    match ParseFloat(TrimSpace(fields[0]))
    case Failure(e) => Step(Failure(e), after)
    case Success(w) =>
      if |fields| < 5 then Step(Failure(Panic(IndexPanic)), after)
      else
        var up := HighLowChord(lines, after, fields[4], 80, 8);
        if up.result.Failure? then Step(Failure(up.result.error), up.next)
        else if |fields| < 6 then Step(Failure(Panic(IndexPanic)), up.next)
        else
          var down := HighLowChord(lines, up.next, fields[5], 80, 8);
          if down.result.Failure? then Step(Failure(down.result.error), down.next)
          else
            Step(Success(bridge.(deckWidth := w,
                                 upHighChord := up.result.value.0, upLowChord := up.result.value.1,
                                 downHighChord := down.result.value.0, downLowChord := down.result.value.1)),
                 down.next)
  }

  /** The loop of getBridgeData from `pos`: a description block, the node name, the deck
      and its chords, piers counted, up to the first "BR Coef" line or the end of the
      input. */
  function BridgeScan(lines: seq<Line>, pos: nat, bridge: Bridge): (r: Step<Bridge>)
    requires pos <= |lines|
    ensures pos <= r.next <= |lines|
    decreases |lines| - pos
  {
    if pos == |lines| then Step(Success(bridge), pos)
    else
      var line := lines[pos];
      if HasPrefix(line, "BEGIN DESCRIPTION") then
        BridgeScan(lines, DescriptionEnd(lines, pos + 1, "END DESCRIPTION:"),
                   bridge.(description := bridge.description + DescriptionText(lines, pos + 1, "END DESCRIPTION:")))
      else if HasPrefix(line, "Node Name=") then
        PrefixChar(line, "Node Name=", '=');
        BridgeScan(lines, pos + 1, bridge.(name := RightOfEquals(line)))
      else if HasPrefix(line, "Deck Dist") then
        var d := DeckStep(lines, pos + 1, bridge);
        if d.result.Failure? then d else BridgeScan(lines, d.next, d.result.value)
      else if HasPrefix(line, "Pier Skew") then
        BridgeScan(lines, pos + 1, bridge.(numPiers := bridge.numPiers + 1))
      else if HasPrefix(line, "BR Coef") then Step(Success(bridge), pos + 1)
      else BridgeScan(lines, pos + 1, bridge)
  }

  /** getBridgeData: the station is the second field of the structure line's data; a
      missing field panics, one that is not a number is an error. */
  function BridgeBlock(lines: seq<Line>, pos: nat, lineData: seq<string>): (r: Step<Bridge>)
    requires pos <= |lines|
    ensures pos <= r.next <= |lines|
  {
    if |lineData| < 2 then Step(Failure(Panic(IndexPanic)), pos)
    else
      match ParseFloat(TrimSpace(lineData[1]))
      case Failure(e) => Step(Failure(e), pos)
      case Success(station) => BridgeScan(lines, pos, NoBridge.(station := station))
  }

  method ReadDeck(sc: Scanner, bridge: Bridge) returns (r: Result<Bridge>)
    requires sc.Valid()
    modifies sc
    ensures sc.Valid()
    ensures Step(r, sc.pos) == DeckStep(sc.lines, old(sc.pos), bridge)
  {
    var _ := sc.Scan();
    var nextLineData := Split(sc.text, ',');
    var deckWidth := ParseFloat(TrimSpace(nextLineData[0]));
    if deckWidth.Failure? {
      return Failure(deckWidth.error);
    }
    if |nextLineData| < 5 {
      return Failure(Panic(IndexPanic));
    }
    var upHighLowPair := GetHighLowChord(sc, nextLineData[4], 80, 8);
    if upHighLowPair.Failure? {
      return Failure(upHighLowPair.error);
    }
    if |nextLineData| < 6 {
      return Failure(Panic(IndexPanic));
    }
    var downHighLowPair := GetHighLowChord(sc, nextLineData[5], 80, 8);
    if downHighLowPair.Failure? {
      return Failure(downHighLowPair.error);
    }
    return Success(bridge.(deckWidth := deckWidth.value,
                           upHighChord := upHighLowPair.value.0, upLowChord := upHighLowPair.value.1,
                           downHighChord := downHighLowPair.value.0, downLowChord := downHighLowPair.value.1));
  }

  method GetBridgeData(sc: Scanner, lineData: seq<string>) returns (r: Result<Bridge>)
    requires sc.Valid()
    modifies sc
    ensures sc.Valid()
    ensures Step(r, sc.pos) == BridgeBlock(sc.lines, old(sc.pos), lineData)
  {
    if |lineData| < 2 {
      return Failure(Panic(IndexPanic));
    }
    var station := ParseFloat(TrimSpace(lineData[1]));
    if station.Failure? {
      return Failure(station.error);
    }
    var bridge := NoBridge.(station := station.value);
    while true
      invariant sc.Valid()
      invariant BridgeBlock(sc.lines, old(sc.pos), lineData) == BridgeScan(sc.lines, sc.pos, bridge)
      decreases |sc.lines| - sc.pos
    {
      var ok := sc.Scan();
      if !ok {
        return Success(bridge);
      }
      var line := sc.text;
      if HasPrefix(line, "BEGIN DESCRIPTION") {
        var description, _ := GetDescription(sc, 0, "END DESCRIPTION:");
        bridge := bridge.(description := bridge.description + description);
      } else if HasPrefix(line, "Node Name=") {
        PrefixChar(line, "Node Name=", '=');
        bridge := bridge.(name := RightOfEquals(line));
      } else if HasPrefix(line, "Deck Dist") {
        var deck := ReadDeck(sc, bridge);
        if deck.Failure? {
          return deck;
        }
        bridge := deck.value;
      } else if HasPrefix(line, "Pier Skew") {
        bridge := bridge.(numPiers := bridge.numPiers + 1);
      } else if HasPrefix(line, "BR Coef") {
        return Success(bridge);
      }
    }
  }

  /** The lines the loop of getBridgeData tests from `pos`, in order: the lines of a
      description block and the deck lines after a "Deck Dist" line are read by their
      own readers and passed over, and the loop stops at the first "BR Coef" line. */
  function BridgeVisited(lines: seq<Line>, pos: nat): (v: seq<nat>)
    requires pos <= |lines|
    ensures LinesFrom(lines, v, pos)
    ensures v == [] <==> pos == |lines|
    ensures v != [] ==> v[0] == pos
    ensures forall i | 0 <= i < |v| - 1 :: !HasPrefix(lines[v[i]], "BR Coef")
    decreases |lines| - pos
  {
    if pos == |lines| then []
    else
      var line := lines[pos];
      if HasPrefix(line, "BEGIN DESCRIPTION") then
        PrefixesDiffer(line, "BEGIN DESCRIPTION", "BR Coef", 1);
        [pos] + BridgeVisited(lines, DescriptionEnd(lines, pos + 1, "END DESCRIPTION:"))
      else if HasPrefix(line, "Deck Dist") then
        PrefixesDiffer(line, "Deck Dist", "BR Coef", 0);
        [pos] + BridgeVisited(lines, DeckStep(lines, pos + 1, NoBridge).next)
      else if HasPrefix(line, "BR Coef") then [pos]
      else [pos] + BridgeVisited(lines, pos + 1)
  }

  /** Whether the loop of getBridgeData, having tested line `i`, may test line `j`
      next: the following line, the one after the description block line `i` opens,
      or the one after the deck lines that follow a "Deck Dist" line. */
  predicate BridgeGap(lines: seq<Line>, i: nat, j: nat)
  {
    j == i + 1 ||
    (i < |lines| && HasPrefix(lines[i], "BEGIN DESCRIPTION") && j == DescriptionEnd(lines, i + 1, "END DESCRIPTION:")) ||
    (i < |lines| && HasPrefix(lines[i], "Deck Dist") && j == DeckStep(lines, i + 1, NoBridge).next)
  }

  /** One line of the loop: the line it tests next after line `pos`, unless it stops. */
  lemma BridgeVisitedStep(lines: seq<Line>, pos: nat) returns (next: nat)
    requires pos < |lines| && !HasPrefix(lines[pos], "BR Coef")
    ensures pos < next <= |lines| && BridgeGap(lines, pos, next)
    ensures next == if HasPrefix(lines[pos], "BEGIN DESCRIPTION") then DescriptionEnd(lines, pos + 1, "END DESCRIPTION:")
      else if HasPrefix(lines[pos], "Deck Dist") then DeckStep(lines, pos + 1, NoBridge).next
      else pos + 1
    ensures BridgeVisited(lines, pos) == [pos] + BridgeVisited(lines, next)
  {
    var line := lines[pos];
    if HasPrefix(line, "BEGIN DESCRIPTION") {
      next := DescriptionEnd(lines, pos + 1, "END DESCRIPTION:");
    } else if HasPrefix(line, "Deck Dist") {
      next := DeckStep(lines, pos + 1, NoBridge).next;
    } else {
      next := pos + 1;
    }
  }

  /** The loop passes over the lines of description blocks and deck blocks and no
      others, and it tests lines up to the first "BR Coef" line or to the end. */
  lemma {:induction false} BridgeVisitedGaps(lines: seq<Line>, pos: nat)
    requires pos <= |lines|
    ensures var v := BridgeVisited(lines, pos);
      (forall k | 0 <= k < |v| - 1 :: BridgeGap(lines, v[k], v[k + 1])) &&
      (v != [] ==> HasPrefix(lines[v[|v| - 1]], "BR Coef") || BridgeGap(lines, v[|v| - 1], |lines|))
    decreases |lines| - pos
  {
    if pos < |lines| && !HasPrefix(lines[pos], "BR Coef") {
      var next := BridgeVisitedStep(lines, pos);
      BridgeVisitedGaps(lines, next);
      var v, w := BridgeVisited(lines, pos), BridgeVisited(lines, next);
      forall k | 0 <= k < |v| - 1
        ensures BridgeGap(lines, v[k], v[k + 1])
      {
        if k > 0 { assert v[k] == w[k - 1] && v[k + 1] == w[k]; }
      }
      if w != [] { assert v[|v| - 1] == w[|w| - 1]; }
    }
  }

  /** The deck reader stops at the same line, and fails or not, whatever bridge it
      fills, and it changes only the deck fields. */
  lemma DeckStepAnyBridge(lines: seq<Line>, p: nat, bridge: Bridge)
    requires p <= |lines|
    ensures var d, d0 := DeckStep(lines, p, bridge), DeckStep(lines, p, NoBridge);
      d.next == d0.next && d.result.Success? == d0.result.Success? &&
      (d.result.Success? ==>
        var b := d.result.value;
        b.name == bridge.name && b.station == bridge.station && b.description == bridge.description &&
        b.numPiers == bridge.numPiers)
  {
  }

  /** What one of the lines the loop tests, a line that is neither a description
      opener nor a deck line, does to the bridge: a node name is recorded, a pier
      counted, and nothing else changes. */
  lemma PlainLineStep(lines: seq<Line>, pos: nat, bridge: Bridge)
    requires pos < |lines| && !HasPrefix(lines[pos], "BEGIN DESCRIPTION") && !HasPrefix(lines[pos], "Deck Dist")
    requires !HasPrefix(lines[pos], "BR Coef")
    ensures var line := lines[pos];
      BridgeScan(lines, pos, bridge) == BridgeScan(lines, pos + 1,
        if HasPrefix(line, "Node Name=") then bridge.(name := KeyedValue(line, "Node Name=").value)
        else if HasPrefix(line, "Pier Skew") then bridge.(numPiers := bridge.numPiers + 1)
        else bridge)
    ensures HasPrefix(lines[pos], "Node Name=") ==> !HasPrefix(lines[pos], "Pier Skew")
  {
    if HasPrefix(lines[pos], "Node Name=") {
      PrefixesDiffer(lines[pos], "Node Name=", "Pier Skew", 0);
    }
  }

  /** The bridge a loop of getBridgeData leaves: one pier more per "Pier Skew" line it
      tests, the name of the last "Node Name=" line it tests (or the name it had), the
      same station; and it stops just after the first "BR Coef" line it tests, or at
      the end of the input. */
  lemma {:induction false} BridgeScanCounts(lines: seq<Line>, pos: nat, bridge: Bridge)
    requires pos <= |lines|
    ensures var r, v := BridgeScan(lines, pos, bridge), BridgeVisited(lines, pos);
      r.result.Success? ==>
        r.result.value.numPiers == bridge.numPiers + CountPrefixedAmong(lines, v, "Pier Skew") &&
        r.result.value.name ==
          (match LastKeyedAmong(lines, v, "Node Name=") case Some(x) => x case None => bridge.name) &&
        r.result.value.station == bridge.station &&
        r.next == (if v != [] && HasPrefix(lines[v[|v| - 1]], "BR Coef") then v[|v| - 1] + 1 else |lines|)
    decreases |lines| - pos
  {
    if pos < |lines| {
      var line := lines[pos];
      var v := BridgeVisited(lines, pos);
      if HasPrefix(line, "BR Coef") {
        PrefixesDiffer(line, "BR Coef", "Pier Skew", 0);
        PrefixesDiffer(line, "BR Coef", "Node Name=", 0);
        PrefixesDiffer(line, "BR Coef", "BEGIN DESCRIPTION", 1);
        PrefixesDiffer(line, "BR Coef", "Deck Dist", 0);
        ConsAmong(lines, pos, [], v, bridge.name);
      } else {
        var next, b := BridgeLineStep(lines, pos, bridge);
        BridgeScanCounts(lines, next, b);
        ConsAmong(lines, pos, BridgeVisited(lines, next), v, bridge.name);
      }
    }
  }

  /** One line the loop tests, other than a "BR Coef" line: the loop goes on at `next`
      with `b`, which has one pier more for a "Pier Skew" line and the name of a "Node
      Name=" line, unless the line's own reader fails. */
  lemma BridgeLineStep(lines: seq<Line>, pos: nat, bridge: Bridge) returns (next: nat, b: Bridge)
    requires pos < |lines| && !HasPrefix(lines[pos], "BR Coef")
    ensures pos < next <= |lines|
    ensures BridgeVisited(lines, pos) == [pos] + BridgeVisited(lines, next)
    ensures BridgeScan(lines, pos, bridge).result.Success? ==> BridgeScan(lines, pos, bridge) == BridgeScan(lines, next, b)
    ensures b.numPiers == bridge.numPiers + (if HasPrefix(lines[pos], "Pier Skew") then 1 else 0)
    ensures b.name == match KeyedValue(lines[pos], "Node Name=") case Some(x) => x case None => bridge.name
    ensures b.station == bridge.station
  {
    var line := lines[pos];
    next := BridgeVisitedStep(lines, pos);
    if HasPrefix(line, "BEGIN DESCRIPTION") {
      b := DescriptionLineStep(lines, pos, bridge);
    } else if HasPrefix(line, "Deck Dist") {
      b := DeckLineStep(lines, pos, bridge);
    } else {
      PlainLineStep(lines, pos, bridge);
      b := if HasPrefix(line, "Node Name=") then bridge.(name := KeyedValue(line, "Node Name=").value)
           else if HasPrefix(line, "Pier Skew") then bridge.(numPiers := bridge.numPiers + 1)
           else bridge;
    }
  }

  /** A description opener the loop tests: the description grows, the rest of the
      bridge is kept, and the loop goes on after the block. */
  lemma DescriptionLineStep(lines: seq<Line>, pos: nat, bridge: Bridge) returns (b: Bridge)
    requires pos < |lines| && HasPrefix(lines[pos], "BEGIN DESCRIPTION")
    ensures BridgeScan(lines, pos, bridge) == BridgeScan(lines, DescriptionEnd(lines, pos + 1, "END DESCRIPTION:"), b)
    ensures !HasPrefix(lines[pos], "Pier Skew") && KeyedValue(lines[pos], "Node Name=").None?
    ensures b.numPiers == bridge.numPiers && b.name == bridge.name && b.station == bridge.station
  {
    PrefixesDiffer(lines[pos], "BEGIN DESCRIPTION", "Pier Skew", 0);
    PrefixesDiffer(lines[pos], "BEGIN DESCRIPTION", "Node Name=", 0);
    b := bridge.(description := bridge.description + DescriptionText(lines, pos + 1, "END DESCRIPTION:"));
  }

  /** A "Deck Dist" line the loop tests: the deck reader fills the deck fields, the rest
      of the bridge is kept, and the loop goes on after the deck lines. */
  lemma DeckLineStep(lines: seq<Line>, pos: nat, bridge: Bridge) returns (b: Bridge)
    requires pos < |lines| && HasPrefix(lines[pos], "Deck Dist") && !HasPrefix(lines[pos], "BEGIN DESCRIPTION")
    ensures BridgeScan(lines, pos, bridge).result.Success? ==>
      BridgeScan(lines, pos, bridge) == BridgeScan(lines, DeckStep(lines, pos + 1, NoBridge).next, b)
    ensures !HasPrefix(lines[pos], "Pier Skew") && KeyedValue(lines[pos], "Node Name=").None?
    ensures b.numPiers == bridge.numPiers && b.name == bridge.name && b.station == bridge.station
  {
    PrefixesDiffer(lines[pos], "Deck Dist", "Pier Skew", 0);
    PrefixesDiffer(lines[pos], "Deck Dist", "Node Name=", 0);
    var d := DeckStep(lines, pos + 1, bridge);
    DeckStepAnyBridge(lines, pos + 1, bridge);
    b := if d.result.Success? then d.result.value else bridge;
  }

  /** The counts and the last name over `pos` followed by the indices `w`. */
  lemma ConsAmong(lines: seq<Line>, pos: nat, w: seq<nat>, v: seq<nat>, name: string)
    requires pos < |lines| && v == [pos] + w
    ensures v[|v| - 1] == if w == [] then pos else w[|w| - 1]
    ensures CountPrefixedAmong(lines, v, "Pier Skew")
      == (if HasPrefix(lines[pos], "Pier Skew") then 1 else 0) + CountPrefixedAmong(lines, w, "Pier Skew")
    ensures LastKeyedAmong(lines, v, "Node Name=") == match LastKeyedAmong(lines, w, "Node Name=")
      case Some(x) => Some(x)
      case None => KeyedValue(lines[pos], "Node Name=")
  {
    assert v[1..] == w;
  }

  /** A bridge read after a structure line: its station is the value of the second
      field of the line's data, its name that of the last "Node Name=" line the loop
      tests (empty if none), and it has one pier per "Pier Skew" line the loop tests. */
  lemma BridgeRecord(lines: seq<Line>, pos: nat, lineData: seq<string>)
    requires pos <= |lines|
    ensures var r, v := BridgeBlock(lines, pos, lineData), BridgeVisited(lines, pos);
      r.result.Success? ==>
        |lineData| >= 2 && ParseFloat(TrimSpace(lineData[1])).Success? &&
        r.result.value.station == ParseFloat(TrimSpace(lineData[1])).value &&
        r.result.value.name == (match LastKeyedAmong(lines, v, "Node Name=") case Some(x) => x case None => "") &&
        r.result.value.numPiers == CountPrefixedAmong(lines, v, "Pier Skew")
  {
    if |lineData| >= 2 && ParseFloat(TrimSpace(lineData[1])).Success? {
      BridgeScanCounts(lines, pos, NoBridge.(station := ParseFloat(TrimSpace(lineData[1])).value));
    }
  }

  /** A structure line whose data has no second field panics, and a station that is not
      a number is an error, before any line is read. */
  lemma {:induction false} StationFirst(lines: seq<Line>, pos: nat, lineData: seq<string>)
    requires pos <= |lines|
    ensures |lineData| < 2 ==> BridgeBlock(lines, pos, lineData) == Step(Failure(Panic(IndexPanic)), pos)
    ensures |lineData| >= 2 && ParseFloat(TrimSpace(lineData[1])).Failure? ==>
      BridgeBlock(lines, pos, lineData) == Step(Failure(ParseFloat(TrimSpace(lineData[1])).error), pos)
  {
  }
}
