/** The line readers of the geometry-file parser: maximum and minimum of a value list,
    the right-hand side of a `key=value` line, description blocks, and the fixed-width
    columnar blocks of values and of value pairs. The readers that consume lines do so
    from a shared scanner; each is proved equal to a function of the lines and the
    position it starts at, and the properties are lemmas about those functions. */
module GeomReaders {
  import opened Wrappers
  import opened GoStrings
  import opened Numbers
  import opened LineScanner

  const EmptyMaxMsg := "Cannot detect a maximum value in an empty slice"
  const EmptyMinMsg := "Cannot detect a minimum value in an empty slice"
  /** A fixed-width field slice that runs past the end of its line. */
  const ShortFieldPanic := "slice bounds out of range"

  function Min(a: int, b: int): int {
    if a <= b then a else b
  }

  /** The largest value of a non-empty list. */
  function SeqMax(v: seq<real>): (m: real)
    requires |v| > 0
    ensures m in v && forall x | x in v :: x <= m
  {
    if |v| == 1 then v[0]
    else
      var init := v[..|v| - 1];
      var t := SeqMax(init);
      assert forall x | x in v :: x in init || x == v[|v| - 1];
      if v[|v| - 1] > t then v[|v| - 1] else t
  }

  /** The smallest value of a non-empty list. */
  function SeqMin(v: seq<real>): (m: real)
    requires |v| > 0
    ensures m in v && forall x | x in v :: m <= x
  {
    if |v| == 1 then v[0]
    else
      var init := v[..|v| - 1];
      var t := SeqMin(init);
      assert forall x | x in v :: x in init || x == v[|v| - 1];
      if v[|v| - 1] < t then v[|v| - 1] else t
  }

  /** maxValue: an error on an empty list; otherwise an element no smaller than any other. */
  method MaxValue(values: seq<real>) returns (max: real, err: Option<Fault>)
    ensures |values| == 0 ==> max == 0.0 && err == Some(Err(EmptyMaxMsg))
    ensures |values| > 0 ==> err == None && max in values && forall v | v in values :: v <= max
  {
    if |values| == 0 {
      return 0.0, Some(Err(EmptyMaxMsg));
    }
    max := values[0];
    var i := 0;
    while i < |values|
      invariant 0 <= i <= |values|
      invariant max in values
      invariant forall k | 0 <= k < i :: values[k] <= max
    {
      if values[i] > max {
        max := values[i];
      }
      i := i + 1;
    }
    assert forall v | v in values :: exists k :: 0 <= k < |values| && values[k] == v;
    err := None;
  }

  /** minValue: an error on an empty list; otherwise an element no larger than any other. */
  method MinValue(values: seq<real>) returns (min: real, err: Option<Fault>)
    ensures |values| == 0 ==> min == 0.0 && err == Some(Err(EmptyMinMsg))
    ensures |values| > 0 ==> err == None && min in values && forall v | v in values :: min <= v
  {
    if |values| == 0 {
      return 0.0, Some(Err(EmptyMinMsg));
    }
    min := values[0];
    var i := 0;
    while i < |values|
      invariant 0 <= i <= |values|
      invariant min in values
      invariant forall k | 0 <= k < i :: min <= values[k]
    {
      if values[i] < min {
        min := values[i];
      }
      i := i + 1;
    }
    assert forall v | v in values :: exists k :: 0 <= k < |values| && values[k] == v;
    err := None;
  }

  /** rightofEquals: the text between the first '=' and the next one, trimmed. */
  function RightOfEquals(line: string): (r: string)
    requires '=' in line
  {
    TrimSpace(SecondField(line, '='))
  }

  /** numberofLines: how many rows of `colWidth / valueWidth` values hold `nValues`
      values, rounded up, e.g. 2 rows for 12 values at 80/8. */
  function NumberOfLines(nValues: int, colWidth: int, valueWidth: int): (n: int)
    requires colWidth > 0 && valueWidth > 0
    ensures (n - 1) * colWidth < nValues * valueWidth <= n * colWidth
  {
    var x := nValues * valueWidth;
    var q := (-x) / colWidth;
    assert q * colWidth <= -x < q * colWidth + colWidth;
    -q
  }

  /** The index of the first line at or after `from` containing `marker`, or |lines|. */
  function FirstContaining(lines: seq<Line>, from: nat, marker: string): (k: nat)
    requires from <= |lines|
    ensures from <= k <= |lines|
    ensures k < |lines| ==> Contains(lines[k], marker)
    ensures forall j | from <= j < k :: !Contains(lines[j], marker)
    decreases |lines| - from
  {
    if from == |lines| || Contains(lines[from], marker) then from
    else FirstContaining(lines, from + 1, marker)
  }

  /** The index of the first line at or after `from` starting with `prefix`, or |lines|. */
  function FirstPrefixed(lines: seq<Line>, from: nat, prefix: string): (k: nat)
    requires from <= |lines|
    ensures from <= k <= |lines|
    ensures k < |lines| ==> HasPrefix(lines[k], prefix)
    ensures forall j | from <= j < k :: !HasPrefix(lines[j], prefix)
    decreases |lines| - from
  {
    if from == |lines| || HasPrefix(lines[from], prefix) then from
    else FirstPrefixed(lines, from + 1, prefix)
  }

  /** The non-empty members of `ls`, in order. */
  function NonEmpty(ls: seq<string>): (r: seq<string>)
    ensures |r| <= |ls|
    ensures forall k | 0 <= k < |r| :: r[k] != "" && r[k] in ls
  {
    if ls == [] then []
    else
      var init := NonEmpty(ls[..|ls| - 1]);
      assert forall x | x in ls[..|ls| - 1] :: x in ls;
      if ls[|ls| - 1] == "" then init else init + [ls[|ls| - 1]]
  }

  /** Line indices of `lines` that a loop tests: from `lo` on, in range, increasing. */
  predicate LinesFrom(lines: seq<Line>, v: seq<nat>, lo: nat)
  {
    (forall i | 0 <= i < |v| :: lo <= v[i] < |lines|) && (forall i, j | 0 <= i < j < |v| :: v[i] < v[j])
  }

  /** How many of the lines at the indices `v` start with `prefix`. */
  function CountPrefixedAmong(lines: seq<Line>, v: seq<nat>, prefix: string): nat
  {
    if v == [] then 0
    else (if v[0] < |lines| && HasPrefix(lines[v[0]], prefix) then 1 else 0) + CountPrefixedAmong(lines, v[1..], prefix)
  }

  /** The value a line that starts with `key`, a key that holds '=', gives: the line's
      first '=' is the key's own, and the value is the text after it up to the next '='
      or the end, trimmed. */
  function KeyedValue(line: string, key: string): (r: Option<string>)
    requires '=' in key
    ensures r.Some? <==> HasPrefix(line, key)
    ensures r.Some? ==>
      '=' in line && IndexOf(line, '=') == IndexOf(key, '=') && r.value == TrimSpace(SecondField(line, '='))
  {
    if HasPrefix(line, key) then
      PrefixIndexOf(line, key, '=');
      Some(RightOfEquals(line))
    else None
  }

  /** The value of the last of the lines at the indices `v` that starts with `key`;
      None when none does. */
  function LastKeyedAmong(lines: seq<Line>, v: seq<nat>, key: string): Option<string>
    requires '=' in key
  {
    if v == [] then None
    else match LastKeyedAmong(lines, v[1..], key)
      case Some(x) => Some(x)
      case None => if v[0] < |lines| then KeyedValue(lines[v[0]], key) else None
  }

  /** The last keyed value among `[pos] + w`: the last among `w`, else that of line `pos`. */
  lemma LastKeyedCons(lines: seq<Line>, pos: nat, w: seq<nat>, key: string)
    requires pos < |lines| && '=' in key
    ensures LastKeyedAmong(lines, [pos] + w, key) == match LastKeyedAmong(lines, w, key)
      case Some(x) => Some(x)
      case None => KeyedValue(lines[pos], key)
  {
    assert ([pos] + w)[1..] == w;
  }

  /** Where a description block that starts at `from` stops: just after the first line
      containing the end marker, or at the end of the input. */
  function DescriptionEnd(lines: seq<Line>, from: nat, marker: string): (e: nat)
    requires from <= |lines|
    ensures from <= e <= |lines|
  {
    var k := FirstContaining(lines, from, marker);
    if k < |lines| then k + 1 else k
  }

  /** The text of a description block: its non-empty lines before the end marker,
      joined by "\n". */
  function DescriptionText(lines: seq<Line>, from: nat, marker: string): string
    requires from <= |lines|
  {
    JoinWith(NonEmpty(lines[from..FirstContaining(lines, from, marker)]), "\n")
  }

  lemma {:induction false} NonEmptySnoc(ls: seq<string>, x: string)
    ensures NonEmpty(ls + [x]) == if x == "" then NonEmpty(ls) else NonEmpty(ls) + [x]
  {
    assert (ls + [x])[..|ls|] == ls;
  }

  lemma {:induction false} JoinSnoc(parts: seq<string>, x: string, sep: string)
    ensures JoinWith(parts + [x], sep) == if parts == [] then x else JoinWith(parts, sep) + sep + x
  {
    assert (parts + [x])[..|parts|] == parts;
  }

  /** getDescription: consumes the lines up to and including the first one that
      contains `endLine` (all remaining lines if none does), and returns the non-empty
      lines before it joined by "\n", with `idx` advanced by the number of lines
      consumed. The end markers both callers pass hold no regular-expression
      metacharacter, so matching one is containing it. */
  method GetDescription(sc: Scanner, idx: int, endLine: string) returns (description: string, newIdx: int)
    requires sc.Valid()
    modifies sc
    ensures sc.Valid()
    ensures sc.pos == DescriptionEnd(sc.lines, old(sc.pos), endLine)
    ensures description == DescriptionText(sc.lines, old(sc.pos), endLine)
    ensures newIdx == idx + (sc.pos - old(sc.pos))
  {
    ghost var from := sc.pos;
    description := "";
    newIdx := idx;
    var nLines := 0;
    while true
      invariant sc.Valid() && from <= sc.pos
      invariant FirstContaining(sc.lines, from, endLine) == FirstContaining(sc.lines, sc.pos, endLine)
      invariant newIdx == idx + (sc.pos - from)
      invariant nLines == |NonEmpty(sc.lines[from..sc.pos])|
      invariant description == JoinWith(NonEmpty(sc.lines[from..sc.pos]), "\n")
      decreases |sc.lines| - sc.pos
    {
      ghost var p := sc.pos;
      var ok := sc.Scan();
      if !ok {
        return;
      }
      var line := sc.text;
      newIdx := newIdx + 1;
      if Contains(line, endLine) {
        return;
      }
      DescriptionLineStep(sc.lines, from, p, sc.pos, "\n");
      if line != "" {
        if nLines > 0 {
          description := description + "\n";
        }
        description := description + line;
        nLines := nLines + 1;
      }
    }
  }

  /** One more line of a description block: an empty line is dropped, any other joins
      the kept lines, after a separator unless it is the first. */
  lemma DescriptionLineStep(lines: seq<Line>, from: nat, p: nat, q: nat, sep: string)
    requires from <= p < |lines| && q == p + 1
    ensures var before, after := NonEmpty(lines[from..p]), NonEmpty(lines[from..q]);
      if lines[p] == "" then after == before
      else
        |after| == |before| + 1 &&
        JoinWith(after, sep) == if |before| == 0 then lines[p] else JoinWith(before, sep) + sep + lines[p]
  {
    var before := lines[from..p];
    assert lines[from..q] == before + [lines[p]];
    NonEmptySnoc(before, lines[p]);
    JoinSnoc(NonEmpty(before), lines[p], sep);
  }

  /** A description holds no blank line and does not end with a newline: splitting it
      at "\n" gives back exactly the non-empty lines of the block. */
  lemma {:induction false} DescriptionLines(lines: seq<Line>, from: nat, marker: string)
    requires from <= |lines|
    ensures var kept := NonEmpty(lines[from..FirstContaining(lines, from, marker)]);
      kept != [] ==> Split(DescriptionText(lines, from, marker), '\n') == kept
  {
    var kept := NonEmpty(lines[from..FirstContaining(lines, from, marker)]);
    if kept != [] {
      forall k | 0 <= k < |kept| ensures '\n' !in kept[k] {
        var x := kept[k];
        assert x in lines;
        var j :| 0 <= j < |lines| && lines[j] == x;
      }
      SplitJoin(kept, '\n');
    }
  }

  /** Prepends `acc` to a successful result; a failure passes through. */
  function Prepend<T>(acc: seq<T>, r: Result<seq<T>>): Result<seq<T>>
  {
    match r
    case Success(v) => Success(acc + v)
    case Failure(e) => Failure(e)
  }

  function StepPrepend<T>(acc: seq<T>, s: Step<seq<T>>): Step<seq<T>>
  {
    Step(Prepend(acc, s.result), s.next)
  }

  lemma PrependNil<T>(r: Result<seq<T>>)
    ensures Prepend([], r) == r
  {
    if r.Success? {
      assert [] + r.value == r.value;
    }
  }

  lemma PrependPrepend<T>(a: seq<T>, b: seq<T>, r: Result<seq<T>>)
    ensures Prepend(a, Prepend(b, r)) == Prepend(a + b, r)
  {
    if r.Success? {
      assert a + (b + r.value) == (a + b) + r.value;
    }
  }

  /** One field of a row of values at offset `s`, trimmed: None when blank, else its
      number; slicing past the end of the line panics. Defined, as FieldAt is, by
      dropping the `s` characters before the field one at a time. */
  function ValueAt(line: string, s: nat, valueWidth: nat): Result<Option<real>>
    decreases s
  {
    if s == 0 then
      if valueWidth > |line| then Failure(Panic(ShortFieldPanic))
      else
        var field := TrimSpace(line[..valueWidth]);
        if field == "" then Success(None)
        else
          match ParseFloat(field)
          case Failure(e) => Failure(e)
          case Success(v) => Success(Some(v))
    else if line == [] then Failure(Panic(ShortFieldPanic))
    else ValueAt(line[1..], s - 1, valueWidth)
  }

  /** The values of one row of a columnar block: the `valueWidth`-wide fields at offsets
      `s`, `s + valueWidth`, ... below both `colWidth` and the line's length, trimmed;
      blank fields are skipped, a field that is not a number is an error, and a field
      that runs past the end of the line is a slice panic. */
  function RowValues(line: string, s: nat, colWidth: int, valueWidth: nat): Result<seq<real>>
    requires valueWidth > 0
    decreases |line| - s
  {
    if s >= colWidth || |line| <= s then Success([])
    else
      match ValueAt(line, s, valueWidth)
      case Failure(e) => Failure(e)
      case Success(None) => RowValues(line, s + valueWidth, colWidth, valueWidth)
      case Success(Some(v)) => Prepend([v], RowValues(line, s + valueWidth, colWidth, valueWidth))
  }

  /** Up to `count` rows from `pos`, their values concatenated; the first row that fails
      ends the read. */
  function ReadRows(lines: seq<Line>, pos: nat, count: nat, colWidth: int, valueWidth: nat): (r: Step<seq<real>>)
    requires pos <= |lines| && valueWidth > 0
    ensures pos <= r.next <= |lines|
    decreases count
  {
    if count == 0 || pos == |lines| then Step(Success([]), pos)
    else
      match RowValues(lines[pos], 0, colWidth, valueWidth)
      case Failure(e) => Step(Failure(e), pos + 1)
      case Success(vs) => StepPrepend(vs, ReadRows(lines, pos + 1, count - 1, colWidth, valueWidth))
  }

  /** How many of the `nSkip` lines to skip are there. */
  function SkipCount(lines: seq<Line>, pos: nat, nSkip: int): nat
    requires pos <= |lines|
  {
    if nSkip <= 0 then 0 else Min(nSkip, |lines| - pos)
  }

  /** How many rows a block of `nLines` rows reads: `nLines` or what is left of the
      input; a block of no rows (nLines <= 0) never reaches its row count and reads to
      the end of the input. */
  function RowCount(lines: seq<Line>, start: nat, nLines: int): nat
    requires start <= |lines|
  {
    if nLines >= 1 then Min(nLines, |lines| - start) else |lines| - start
  }

  /** datafromTextBlock: skip `nSkip` lines, then read `nLines` rows. */
  function DataBlock(lines: seq<Line>, pos: nat, colWidth: int, valueWidth: nat, nLines: int, nSkip: int): (r: Step<seq<real>>)
    requires pos <= |lines| && valueWidth > 0
    ensures pos <= r.next <= |lines|
  {
    var start := pos + SkipCount(lines, pos, nSkip);
    ReadRows(lines, start, RowCount(lines, start, nLines), colWidth, valueWidth)
  }

  /** The inner loop of datafromTextBlock: the values of one row appended to `values`. */
  method AppendRowValues(values: seq<real>, line: string, colWidth: int, valueWidth: nat)
    returns (r: Result<seq<real>>)
    requires valueWidth > 0
    ensures r == Prepend(values, RowValues(line, 0, colWidth, valueWidth))
  {
    var acc := values;
    var s := 0;
    while s < colWidth
      invariant Prepend(acc, RowValues(line, s, colWidth, valueWidth))
        == Prepend(values, RowValues(line, 0, colWidth, valueWidth))
      decreases colWidth - s
    {
      if |line| > s {
        var val := ValueAt(line, s, valueWidth);
        if val.Failure? {
          return Failure(val.error);
        }
        if val.value.Some? {
          RowValuesAdvance(line, s, s + valueWidth, colWidth, valueWidth, val.value.value, acc);
          acc := acc + [val.value.value];
        }
        s := s + valueWidth;
      } else {
        break;
      }
    }
    assert acc + [] == acc;
    return Success(acc);
  }

  /** One step of a row of values: a number read at offset `s` joins the values so
      far, and the rest of the row starts one field on. */
  lemma RowValuesAdvance(line: string, s: nat, next: nat, colWidth: int, valueWidth: nat,
                         v: real, acc: seq<real>)
    requires valueWidth > 0 && s < colWidth && s < |line| && next == s + valueWidth
    requires ValueAt(line, s, valueWidth) == Success(Some(v))
    ensures Prepend(acc, RowValues(line, s, colWidth, valueWidth))
      == Prepend(acc + [v], RowValues(line, next, colWidth, valueWidth))
  {
    PrependPrepend(acc, [v], RowValues(line, next, colWidth, valueWidth));
  }

  /** The field at offset `s` is line[s:s+valueWidth], trimmed: blank, or parsed, and
      the slice panics exactly when it runs past the end of the line. */
  lemma {:induction false} ValueAtSlice(line: string, s: nat, valueWidth: nat)
    ensures ValueAt(line, s, valueWidth)
      == if s + valueWidth > |line| then Failure(Panic(ShortFieldPanic))
         else
           var field := TrimSpace(line[s..s + valueWidth]);
           if field == "" then Success(None)
           else if ParseFloat(field).Failure? then Failure(ParseFloat(field).error)
           else Success(Some(ParseFloat(field).value))
    decreases s
  {
    if s > 0 && line != [] {
      ValueAtSlice(line[1..], s - 1, valueWidth);
      if s + valueWidth <= |line| {
        assert line[1..][s - 1..s - 1 + valueWidth] == line[s..s + valueWidth];
      }
    }
  }

  method DataFromTextBlock(sc: Scanner, colWidth: int, valueWidth: nat, nLines: int, nSkipLines: int)
    returns (r: Result<seq<real>>)
    requires sc.Valid() && valueWidth > 0
    modifies sc
    ensures sc.Valid()
    ensures Step(r, sc.pos) == DataBlock(sc.lines, old(sc.pos), colWidth, valueWidth, nLines, nSkipLines)
  {
    ghost var pos0 := sc.pos;
    ghost var skip := SkipCount(sc.lines, pos0, nSkipLines);
    ghost var count := RowCount(sc.lines, pos0 + skip, nLines);
    ghost var whole := DataBlock(sc.lines, pos0, colWidth, valueWidth, nLines, nSkipLines);
    PrependNil(whole.result);
    var values: seq<real> := [];
    var nSkipped := 0;
    var nProcessed := 0;
    ghost var left := count;
    while true
      invariant sc.Valid()
      invariant sc.pos == pos0 + nSkipped + nProcessed
      invariant 0 <= nSkipped <= skip && nProcessed <= count && left == count - nProcessed
      invariant nSkipped < skip ==> nProcessed == 0 && values == []
      invariant nLines >= 1 ==> nProcessed < nLines
      invariant nSkipped == skip ==>
        whole == StepPrepend(values, ReadRows(sc.lines, sc.pos, left, colWidth, valueWidth))
      decreases |sc.lines| - sc.pos
    {
      ghost var p := sc.pos;
      var ok := sc.Scan();
      if !ok {
        assert values + [] == values;
        return Success(values);
      }
      if nSkipped < nSkipLines {
        nSkipped := nSkipped + 1;
        if nSkipped == skip {
          PrependNil(ReadRows(sc.lines, sc.pos, count, colWidth, valueWidth).result);
        }
        continue;
      }
      nProcessed := nProcessed + 1;
      var line := sc.text;
      r := AppendRowValues(values, line, colWidth, valueWidth);
      ReadRowsStep(sc.lines, p, sc.pos, left, left - 1, colWidth, valueWidth, values);
      left := left - 1;
      if r.Failure? {
        return;
      }
      values := r.value;
      if nLines == nProcessed {
        assert values + [] == values;
        return Success(values);
      }
    }
  }

  /** One row of a read of `c` rows at `p`, after `values`: a failing row ends the read
      at the next line, any other row joins the values and leaves `c - 1` rows to read
      from the next line. */
  lemma ReadRowsStep(lines: seq<Line>, p: nat, q: nat, c: nat, c': nat, colWidth: int, valueWidth: nat, values: seq<real>)
    requires p < |lines| && q == p + 1 && c > 0 && c' == c - 1 && valueWidth > 0
    ensures var row := RowValues(lines[p], 0, colWidth, valueWidth);
      StepPrepend(values, ReadRows(lines, p, c, colWidth, valueWidth))
        == if row.Failure? then Step(Failure(row.error), q)
           else StepPrepend(values + row.value, ReadRows(lines, q, c', colWidth, valueWidth))
  {
    var row := RowValues(lines[p], 0, colWidth, valueWidth);
    if row.Success? {
      PrependPrepend(values, row.value, ReadRows(lines, q, c', colWidth, valueWidth).result);
    }
  }

  /** A read of `count` rows that succeeds has consumed exactly those rows, or all
      the input when fewer were left. */
  lemma {:induction false} ReadRowsConsumes(lines: seq<Line>, pos: nat, count: nat, colWidth: int, valueWidth: nat)
    requires pos <= |lines| && valueWidth > 0
    ensures ReadRows(lines, pos, count, colWidth, valueWidth).result.Success? ==>
      ReadRows(lines, pos, count, colWidth, valueWidth).next == pos + Min(count, |lines| - pos)
    decreases count
  {
    if count > 0 && pos < |lines| {
      ReadRowsConsumes(lines, pos + 1, count - 1, colWidth, valueWidth);
    }
  }

  /** A successful block skips exactly `nSkip` lines and then reads exactly `nLines`
      rows, as far as the input goes; with nLines <= 0 it reads the rest of the input. */
  lemma {:induction false} DataBlockConsumes(lines: seq<Line>, pos: nat, colWidth: int, valueWidth: nat, nLines: int, nSkip: int)
    requires pos <= |lines| && valueWidth > 0
    ensures var r := DataBlock(lines, pos, colWidth, valueWidth, nLines, nSkip);
      r.result.Success? ==>
        (nSkip >= 0 && nLines >= 1 ==> r.next == Min(pos + nSkip + nLines, |lines|)) &&
        (nLines <= 0 ==> r.next == |lines|)
  {
    var start := pos + SkipCount(lines, pos, nSkip);
    ReadRowsConsumes(lines, start, RowCount(lines, start, nLines), colWidth, valueWidth);
  }

  function RowPrepend(acc: seq<(real, real)>, r: Result<(seq<(real, real)>, bool)>): Result<(seq<(real, real)>, bool)>
  {
    match r
    case Success((ps, done)) => Success((acc + ps, done))
    case Failure(e) => Failure(e)
  }

  lemma RowPrependNil(r: Result<(seq<(real, real)>, bool)>)
    ensures RowPrepend([], r) == r
  {
    if r.Success? {
      var (ps, done) := r.value;
      assert [] + ps == ps;
    }
  }

  lemma RowPrependTwice(a: seq<(real, real)>, b: seq<(real, real)>, r: Result<(seq<(real, real)>, bool)>)
    ensures RowPrepend(a, RowPrepend(b, r)) == RowPrepend(a + b, r)
  {
    if r.Success? {
      assert a + (b + r.value.0) == (a + b) + r.value.0;
    }
  }

  /** One `valueWidth`-wide numeric field at offset `s`, trimmed and parsed; slicing
      past the end of the line panics. Defined by dropping the `s` characters before the
      field one at a time; FieldAtSlice states it on the slice itself. */
  function FieldAt(line: string, s: nat, valueWidth: nat): Result<real>
    decreases s
  {
    if s == 0 then
      if valueWidth > |line| then Failure(Panic(ShortFieldPanic)) else ParseFloat(TrimSpace(line[..valueWidth]))
    else if line == [] then Failure(Panic(ShortFieldPanic))
    else FieldAt(line[1..], s - 1, valueWidth)
  }

  /** The field at offset `s` is line[s:s+valueWidth], trimmed and parsed, and the slice
      panics exactly when it runs past the end of the line. */
  lemma {:induction false} FieldAtSlice(line: string, s: nat, valueWidth: nat)
    ensures FieldAt(line, s, valueWidth)
      == if s + valueWidth > |line| then Failure(Panic(ShortFieldPanic))
         else ParseFloat(TrimSpace(line[s..s + valueWidth]))
    decreases s
  {
    if s > 0 && line != [] {
      FieldAtSlice(line[1..], s - 1, valueWidth);
      if s + valueWidth <= |line| {
        assert line[1..][s - 1..s - 1 + valueWidth] == line[s..s + valueWidth];
      }
    }
  }

  /** The pair at offset `s` of a row: two adjacent fields, the first sliced and parsed
      before the second is sliced. */
  function PairAt(line: string, s: nat, valueWidth: nat): Result<(real, real)>
  {
    match FieldAt(line, s, valueWidth)
    case Failure(e) => Failure(e)
    case Success(v1) =>
      match FieldAt(line, s + valueWidth, valueWidth)
      case Failure(e) => Failure(e)
      case Success(v2) => Success((v1, v2))
  }

  /** The pairs of one row of a block of value pairs, read at stride valueWidth * 2
      from offset `s` while the offset is below both `colWidth` and the line's length,
      given that `have` pairs were read before; true when the `nPairs`-th pair was
      reached, where the read stops even in the middle of the line. */
  function RowPairs(line: string, s: nat, colWidth: int, valueWidth: nat, have: nat, nPairs: int): (r: Result<(seq<(real, real)>, bool)>)
    requires valueWidth > 0
    ensures r.Success? && r.value.1 ==> have + |r.value.0| == nPairs
    ensures r.Success? && !r.value.1 && have < nPairs ==> have + |r.value.0| < nPairs
    ensures r.Success? && have >= nPairs ==> !r.value.1
    decreases |line| - s
  {
    if s >= colWidth || |line| <= s then Success(([], false))
    else
      match PairAt(line, s, valueWidth)
      case Failure(e) => Failure(e)
      case Success(pair) =>
        if have + 1 == nPairs then Success(([pair], true))
        else RowPrepend([pair], RowPairs(line, s + valueWidth * 2, colWidth, valueWidth, have + 1, nPairs))
  }

  /** dataPairsfromTextBlock from `pos`, `have` pairs already read. */
  function PairsBlock(lines: seq<Line>, pos: nat, colWidth: int, valueWidth: nat, have: nat, nPairs: int): (r: Step<seq<(real, real)>>)
    requires pos <= |lines| && valueWidth > 0
    ensures pos <= r.next <= |lines|
    decreases |lines| - pos
  {
    if pos == |lines| then Step(Success([]), pos)
    else
      match RowPairs(lines[pos], 0, colWidth, valueWidth, have, nPairs)
      case Failure(e) => Step(Failure(e), pos + 1)
      case Success((ps, done)) =>
        if done then Step(Success(ps), pos + 1)
        else StepPrepend(ps, PairsBlock(lines, pos + 1, colWidth, valueWidth, have + |ps|, nPairs))
  }

  /** A row of pairs with a readable pair at offset `s` that does not reach the pair
      count: that pair, then the rest of the row one stride on. */
  lemma RowPairsUnfold(line: string, s: nat, next: nat, colWidth: int, valueWidth: nat,
                       have: nat, have': nat, nPairs: int, pair: (real, real))
    requires valueWidth > 0 && s < colWidth && s < |line| && next == s + valueWidth * 2
    requires PairAt(line, s, valueWidth) == Success(pair)
    requires have' == have + 1 && have' != nPairs
    ensures RowPairs(line, s, colWidth, valueWidth, have, nPairs)
      == RowPrepend([pair], RowPairs(line, next, colWidth, valueWidth, have', nPairs))
  {
  }

  /** One step of a row of pairs: a pair read at offset `s` that does not reach the
      pair count moves the rest of the row on by one stride. */
  lemma RowPairsAdvance(line: string, s: nat, next: nat, colWidth: int, valueWidth: nat, nPairs: int,
                        pair: (real, real), acc: seq<(real, real)>, acc': seq<(real, real)>)
    requires valueWidth > 0 && s < colWidth && s < |line| && next == s + valueWidth * 2
    requires PairAt(line, s, valueWidth) == Success(pair)
    requires acc' == acc + [pair] && |acc'| != nPairs
    ensures RowPrepend(acc, RowPairs(line, s, colWidth, valueWidth, |acc|, nPairs))
      == RowPrepend(acc', RowPairs(line, next, colWidth, valueWidth, |acc'|, nPairs))
  {
    var have, have' := |acc|, |acc'|;
    assert have' == have + 1;
    RowPairsUnfold(line, s, next, colWidth, valueWidth, have, have', nPairs, pair);
    RowPrependTwice(acc, [pair], RowPairs(line, next, colWidth, valueWidth, have', nPairs));
  }

  /** The pair that reaches the pair count ends the row. */
  lemma RowPairsLast(line: string, s: nat, colWidth: int, valueWidth: nat, nPairs: int,
                     pair: (real, real), acc: seq<(real, real)>)
    requires valueWidth > 0 && s < colWidth && s < |line|
    requires PairAt(line, s, valueWidth) == Success(pair)
    requires |acc| + 1 == nPairs
    ensures RowPrepend(acc, RowPairs(line, s, colWidth, valueWidth, |acc|, nPairs)) == Success((acc + [pair], true))
  {
  }

  /** Past the column width or the end of the line, a row has no more pairs. */
  lemma RowPairsEnd(line: string, s: nat, colWidth: int, valueWidth: nat, nPairs: int, acc: seq<(real, real)>)
    requires valueWidth > 0 && (s >= colWidth || |line| <= s)
    ensures RowPrepend(acc, RowPairs(line, s, colWidth, valueWidth, |acc|, nPairs)) == Success((acc, false))
  {
    assert acc + [] == acc;
  }

  /** The inner loop of dataPairsfromTextBlock: the pairs of one row appended to
      `pairs`, and whether the pair count was reached. */
  method AppendRowPairs(pairs: seq<(real, real)>, line: string, colWidth: int, valueWidth: nat, nPairs: int)
    returns (r: Result<(seq<(real, real)>, bool)>)
    requires valueWidth > 0
    ensures r == RowPrepend(pairs, RowPairs(line, 0, colWidth, valueWidth, |pairs|, nPairs))
  {
    var stride := valueWidth * 2;
    var acc := pairs;
    var s := 0;
    while s < colWidth
      invariant RowPrepend(acc, RowPairs(line, s, colWidth, valueWidth, |acc|, nPairs))
        == RowPrepend(pairs, RowPairs(line, 0, colWidth, valueWidth, |pairs|, nPairs))
      decreases colWidth - s
    {
      if |line| > s {
        var val1 := FieldAt(line, s, valueWidth);
        if val1.Failure? {
          return Failure(val1.error);
        }
        var val2 := FieldAt(line, s + valueWidth, valueWidth);
        if val2.Failure? {
          return Failure(val2.error);
        }
        var pair := (val1.value, val2.value);
        assert PairAt(line, s, valueWidth) == Success(pair);
        ghost var before := acc;
        acc := acc + [pair];
        if |acc| == nPairs {
          RowPairsLast(line, s, colWidth, valueWidth, nPairs, pair, before);
          return Success((acc, true));
        }
        RowPairsAdvance(line, s, s + stride, colWidth, valueWidth, nPairs, pair, before, acc);
      } else {
        RowPairsEnd(line, s, colWidth, valueWidth, nPairs, acc);
        return Success((acc, false));
      }
      s := s + stride;
    }
    RowPairsEnd(line, s, colWidth, valueWidth, nPairs, acc);
    return Success((acc, false));
  }

  /** How one row moves a pair block on: a failing row ends it with that failure, a
      row that reaches the pair count ends it with the pairs so far, any other row
      hands over to the next line. */
  lemma PairsBlockRow(lines: seq<Line>, p: nat, colWidth: int, valueWidth: nat, pairs: seq<(real, real)>,
                      nPairs: int, row: Result<(seq<(real, real)>, bool)>)
    requires p < |lines| && valueWidth > 0
    requires row == RowPrepend(pairs, RowPairs(lines[p], 0, colWidth, valueWidth, |pairs|, nPairs))
    ensures row.Failure? ==>
      StepPrepend(pairs, PairsBlock(lines, p, colWidth, valueWidth, |pairs|, nPairs)) == Step(Failure(row.error), p + 1)
    ensures row.Success? && row.value.1 ==>
      StepPrepend(pairs, PairsBlock(lines, p, colWidth, valueWidth, |pairs|, nPairs)) == Step(Success(row.value.0), p + 1)
    ensures row.Success? && !row.value.1 ==>
      StepPrepend(pairs, PairsBlock(lines, p, colWidth, valueWidth, |pairs|, nPairs))
        == StepPrepend(row.value.0, PairsBlock(lines, p + 1, colWidth, valueWidth, |row.value.0|, nPairs))
  {
    var own := RowPairs(lines[p], 0, colWidth, valueWidth, |pairs|, nPairs);
    if own.Success? && !own.value.1 {
      var have, have' := |pairs|, |row.value.0|;
      PairsBlockNext(lines, p, p + 1, colWidth, valueWidth, have, have', nPairs, own.value.0);
      var rest := PairsBlock(lines, p + 1, colWidth, valueWidth, have', nPairs);
      PrependPrepend(pairs, own.value.0, rest.result);
    }
  }

  /** A row that reads `ps` without reaching the pair count hands over to the next
      line, with `|ps|` more pairs read. */
  lemma PairsBlockNext(lines: seq<Line>, pos: nat, q: nat, colWidth: int, valueWidth: nat,
                       have: nat, have': nat, nPairs: int, ps: seq<(real, real)>)
    requires pos < |lines| && q == pos + 1 && valueWidth > 0
    requires RowPairs(lines[pos], 0, colWidth, valueWidth, have, nPairs) == Success((ps, false))
    requires have' == have + |ps|
    ensures PairsBlock(lines, pos, colWidth, valueWidth, have, nPairs)
      == StepPrepend(ps, PairsBlock(lines, q, colWidth, valueWidth, have', nPairs))
  {
    var row := RowPairs(lines[pos], 0, colWidth, valueWidth, have, nPairs);
    assert row.value == (ps, false);
  }

  /** dataPairsfromTextBlock: rows of value pairs read until `nPairs` pairs are in or
      the text ends. */
  method DataPairsFromTextBlock(sc: Scanner, nPairs: int, colWidth: int, valueWidth: nat)
    returns (r: Result<seq<(real, real)>>)
    requires sc.Valid() && valueWidth > 0
    modifies sc
    ensures sc.Valid()
    ensures Step(r, sc.pos) == PairsBlock(sc.lines, old(sc.pos), colWidth, valueWidth, 0, nPairs)
  {
    ghost var whole := PairsBlock(sc.lines, sc.pos, colWidth, valueWidth, 0, nPairs);
    var pairs: seq<(real, real)> := [];
    PrependNil(whole.result);
    while true
      invariant sc.Valid()
      invariant whole == StepPrepend(pairs, PairsBlock(sc.lines, sc.pos, colWidth, valueWidth, |pairs|, nPairs))
      decreases |sc.lines| - sc.pos
    {
      ghost var p := sc.pos;
      var ok := sc.Scan();
      if !ok {
        assert pairs + [] == pairs;
        return Success(pairs);
      }
      var line := sc.text;
      var row := AppendRowPairs(pairs, line, colWidth, valueWidth, nPairs);
      PairsBlockRow(sc.lines, p, colWidth, valueWidth, pairs, nPairs, row);
      if row.Failure? {
        return Failure(row.error);
      }
      if row.value.1 {
        return Success(row.value.0);
      }
      pairs := row.value.0;
    }
  }

  /** A successful pair block never returns more than `nPairs` pairs, and returns fewer
      only when the input ran out first. */
  lemma {:induction false} PairsBlockCount(lines: seq<Line>, pos: nat, colWidth: int, valueWidth: nat, have: nat, nPairs: int)
    requires pos <= |lines| && valueWidth > 0 && have < nPairs
    ensures var r := PairsBlock(lines, pos, colWidth, valueWidth, have, nPairs);
      r.result.Success? ==>
        have + |r.result.value| <= nPairs && (have + |r.result.value| < nPairs ==> r.next == |lines|)
    decreases |lines| - pos
  {
    if pos < |lines| {
      var row := RowPairs(lines[pos], 0, colWidth, valueWidth, have, nPairs);
      if row.Success? && !row.value.1 {
        var ps := row.value.0;
        var have' := have + |ps|;
        PairsBlockNext(lines, pos, pos + 1, colWidth, valueWidth, have, have', nPairs, ps);
        PairsBlockCount(lines, pos + 1, colWidth, valueWidth, have', nPairs);
      }
    }
  }

  /** getDataPairsfromTextBlock: find the first line starting with `prefix`, read the
      pair count to the right of its '=', then that many pairs; no such line gives no
      pairs. */
  function DataPairsAfter(lines: seq<Line>, pos: nat, prefix: string, colWidth: int, valueWidth: nat): (r: Step<seq<(real, real)>>)
    requires pos <= |lines| && valueWidth > 0
    ensures pos <= r.next <= |lines|
  {
    var k := FirstPrefixed(lines, pos, prefix);
    if k == |lines| then Step(Success([]), k)
    else if '=' !in lines[k] then Step(Failure(Panic("index out of range")), k + 1)
    else
      match Atoi(RightOfEquals(lines[k]))
      case Failure(e) => Step(Failure(e), k + 1)
      case Success(n) => PairsBlock(lines, k + 1, colWidth, valueWidth, 0, n)
  }

  /** When the first count line after `pos` is line `p`, the block is read from the
      line after it. */
  lemma DataPairsFound(lines: seq<Line>, pos: nat, p: nat, q: nat, prefix: string, colWidth: int, valueWidth: nat)
    requires pos <= p < |lines| && q == p + 1 && valueWidth > 0
    requires FirstPrefixed(lines, pos, prefix) == p
    ensures DataPairsAfter(lines, pos, prefix, colWidth, valueWidth)
      == if '=' !in lines[p] then Step(Failure(Panic("index out of range")), q)
         else if Atoi(RightOfEquals(lines[p])).Failure? then Step(Failure(Atoi(RightOfEquals(lines[p])).error), q)
         else PairsBlock(lines, q, colWidth, valueWidth, 0, Atoi(RightOfEquals(lines[p])).value)
  {
  }

  method GetDataPairsFromTextBlock(nDataPairsLine: string, sc: Scanner, colWidth: int, valueWidth: nat)
    returns (r: Result<seq<(real, real)>>)
    requires sc.Valid() && valueWidth > 0
    modifies sc
    ensures sc.Valid()
    ensures Step(r, sc.pos) == DataPairsAfter(sc.lines, old(sc.pos), nDataPairsLine, colWidth, valueWidth)
  {
    ghost var pos0 := sc.pos;
    while true
      invariant sc.Valid() && pos0 <= sc.pos
      invariant FirstPrefixed(sc.lines, pos0, nDataPairsLine) == FirstPrefixed(sc.lines, sc.pos, nDataPairsLine)
      decreases |sc.lines| - sc.pos
    {
      ghost var p := sc.pos;
      var ok := sc.Scan();
      if !ok {
        return Success([]);
      }
      var line := sc.text;
      if HasPrefix(line, nDataPairsLine) {
        DataPairsFound(sc.lines, pos0, p, sc.pos, nDataPairsLine, colWidth, valueWidth);
        if '=' !in line {
          return Failure(Panic("index out of range"));
        }
        var nPairs := Atoi(RightOfEquals(line));
        if nPairs.Failure? {
          return Failure(nPairs.error);
        }
        r := DataPairsFromTextBlock(sc, nPairs.value, colWidth, valueWidth);
        return;
      }
    }
  }

  /** With a count line present, the pairs returned number exactly the count read from
      it, unless the input ended first; with none, there are no pairs. */
  lemma {:induction false} DataPairsCount(lines: seq<Line>, pos: nat, prefix: string, colWidth: int, valueWidth: nat)
    requires pos <= |lines| && valueWidth > 0
    ensures var k := FirstPrefixed(lines, pos, prefix);
      var r := DataPairsAfter(lines, pos, prefix, colWidth, valueWidth);
      (k == |lines| ==> r == Step(Success([]), |lines|)) &&
      (k < |lines| && r.result.Success? && '=' in lines[k] && Atoi(RightOfEquals(lines[k])).Success? ==>
        var n := Atoi(RightOfEquals(lines[k])).value;
        n >= 1 ==> |r.result.value| <= n && (|r.result.value| < n ==> r.next == |lines|))
  {
    var k := FirstPrefixed(lines, pos, prefix);
    if k < |lines| && '=' in lines[k] && Atoi(RightOfEquals(lines[k])).Success? {
      var n := Atoi(RightOfEquals(lines[k])).value;
      if n >= 1 {
        PairsBlockCount(lines, k + 1, colWidth, valueWidth, 0, n);
      }
    }
  }
}
