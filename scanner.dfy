/** A line scanner over an object's content (Go's bufio.Scanner with its default line
    splitting), shared by the readers that consume lines from it. */
module LineScanner {
  import opened Wrappers
  import opened GoStrings

  class Scanner {
    /** The lines the scanner yields, in order. */
    const lines: seq<Line>
    /** How many lines have been consumed. */
    var pos: nat
    /** What Text() returns: the last line scanned, "" once the input is exhausted. */
    var text: string

    ghost predicate Valid()
      reads this
    {
      pos <= |lines|
    }

    constructor (lines: seq<Line>)
      ensures Valid() && this.lines == lines && pos == 0 && text == ""
    {
      this.lines := lines;
      pos := 0;
      text := "";
    }

    /** Scan: advance to the next line, false at the end of the input. */
    method Scan() returns (ok: bool)
      requires Valid()
      modifies this
      ensures Valid()
      ensures ok <==> old(pos) < |lines|
      ensures pos == if ok then old(pos) + 1 else old(pos)
      ensures text == if ok then lines[old(pos)] else ""
    {
      ok := pos < |lines|;
      if ok {
        text := lines[pos];
        pos := pos + 1;
      } else {
        text := "";
      }
    }
  }

  /** What a reader on a shared scanner produces: its result and the position it leaves
      the scanner at. */
  datatype Step<+T> = Step(result: Result<T>, next: nat)
}
