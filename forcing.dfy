/** The forcing data of a model: one flow file dispatched, on the first two characters
    of its extension, to the steady or unsteady parser, or recorded as quasi-unsteady
    (not implemented), with the outcome sent on a channel. */
module Forcing {
  import opened Wrappers
  import opened GoStrings

  const NotImplemented := "Not Implemented"

  /** The forcing data as a value: the steady and unsteady flows parsed so far, each
      under its file's key, and the quasi-unsteady files seen. */
  datatype ForcingState<S, U> = ForcingState(
    steady: map<string, S>, quasiUnsteady: map<string, string>, unsteady: map<string, U>)

  /** What a parser does to the map it fills: the new map and its error, if any. */
  datatype ParseOutcome<T> = ParseOutcome(entries: map<string, T>, err: Option<Fault>)

  /** The forcing data one flow file leaves and the error sent for it. ".f" and ".u"
      files go to their parser, which updates only its own map and whose error is
      forwarded; a ".q" file maps its name to "Not Implemented"; anything else changes
      nothing; the last two report no error. */
  function ForcingUpdate<S, U>(
    st: ForcingState<S, U>, flowFilePath: string,
    steadyParser: (map<string, S>, string) -> ParseOutcome<S>,
    unsteadyParser: (map<string, U>, string) -> ParseOutcome<U>): (ForcingState<S, U>, Option<Fault>)
    requires |Ext(flowFilePath)| >= 2
  {
    var extPrefix := Ext(flowFilePath)[..2];
    if extPrefix == ".f" then
      var p := steadyParser(st.steady, flowFilePath);
      (st.(steady := p.entries), p.err)
    else if extPrefix == ".u" then
      var p := unsteadyParser(st.unsteady, flowFilePath);
      (st.(unsteady := p.entries), p.err)
    else if extPrefix == ".q" then
      (st.(quasiUnsteady := st.quasiUnsteady[Base(flowFilePath) := NotImplemented]), None)
    else (st, None)
  }

  /** The forcing data, filled in place by the workers. */
  class ForcingData<S, U> {
    var steady: map<string, S>
    var quasiUnsteady: map<string, string>
    var unsteady: map<string, U>

    constructor()
      ensures steady == map[] && quasiUnsteady == map[] && unsteady == map[]
    {
      steady, quasiUnsteady, unsteady := map[], map[], map[];
    }

    function State(): ForcingState<S, U>
      reads this
    {
      ForcingState(steady, quasiUnsteady, unsteady)
    }
  }

  /** The channel the workers report on: every value sent, in order. */
  class ErrorChannel {
    var sent: seq<Option<Fault>>

    constructor()
      ensures sent == []
    {
      sent := [];
    }

    method Send(err: Option<Fault>)
      modifies this
      ensures sent == old(sent) + [err]
    {
      sent := sent + [err];
    }
  }

  /** GetForcingData: the dispatch on the extension's first two characters, then
      exactly one value sent on the channel. */
  method GetForcingData<S, U>(
    fd: ForcingData<S, U>, c: ErrorChannel, flowFilePath: string,
    steadyParser: (map<string, S>, string) -> ParseOutcome<S>,
    unsteadyParser: (map<string, U>, string) -> ParseOutcome<U>)
    requires |Ext(flowFilePath)| >= 2
    modifies fd, c
    ensures fd.State() == ForcingUpdate(old(fd.State()), flowFilePath, steadyParser, unsteadyParser).0
    ensures c.sent == old(c.sent) + [ForcingUpdate(old(fd.State()), flowFilePath, steadyParser, unsteadyParser).1]
  {
    var extPrefix := Ext(flowFilePath)[..2];
    var err: Option<Fault> := None;
    if extPrefix == ".f" {
      var p := steadyParser(fd.steady, flowFilePath);
      fd.steady := p.entries;
      err := p.err;
    } else if extPrefix == ".u" {
      var p := unsteadyParser(fd.unsteady, flowFilePath);
      fd.unsteady := p.entries;
      err := p.err;
    } else if extPrefix == ".q" {
      var flowFileName := Base(flowFilePath);
      fd.quasiUnsteady := fd.quasiUnsteady[flowFileName := NotImplemented];
    }
    c.Send(err);
  }

  /** A steady flow file is handed to the steady parser, changes only the steady map
      and reports the parser's error. */
  lemma SteadyFlowFile<S, U>(
    st: ForcingState<S, U>, flowFilePath: string,
    steadyParser: (map<string, S>, string) -> ParseOutcome<S>,
    unsteadyParser: (map<string, U>, string) -> ParseOutcome<U>)
    requires |Ext(flowFilePath)| >= 2 && HasPrefix(Ext(flowFilePath), ".f")
    ensures var r := ForcingUpdate(st, flowFilePath, steadyParser, unsteadyParser);
      var p := steadyParser(st.steady, flowFilePath);
      r.0 == st.(steady := p.entries) && r.1 == p.err
  {
    assert Ext(flowFilePath)[..2] == ".f";
  }

  /** An unsteady flow file is handed to the unsteady parser, changes only the
      unsteady map and reports the parser's error. */
  lemma UnsteadyFlowFile<S, U>(
    st: ForcingState<S, U>, flowFilePath: string,
    steadyParser: (map<string, S>, string) -> ParseOutcome<S>,
    unsteadyParser: (map<string, U>, string) -> ParseOutcome<U>)
    requires |Ext(flowFilePath)| >= 2 && HasPrefix(Ext(flowFilePath), ".u")
    ensures var r := ForcingUpdate(st, flowFilePath, steadyParser, unsteadyParser);
      var p := unsteadyParser(st.unsteady, flowFilePath);
      r.0 == st.(unsteady := p.entries) && r.1 == p.err
  {
    assert Ext(flowFilePath)[..2] == ".u";
  }

  /** A quasi-unsteady flow file maps its name to "Not Implemented", keeps every other
      entry and reports no error; any other file that is not steady or unsteady
      changes nothing and reports no error. */
  lemma UnparsedFlowFile<S, U>(
    st: ForcingState<S, U>, flowFilePath: string,
    steadyParser: (map<string, S>, string) -> ParseOutcome<S>,
    unsteadyParser: (map<string, U>, string) -> ParseOutcome<U>)
    requires |Ext(flowFilePath)| >= 2
    requires !HasPrefix(Ext(flowFilePath), ".f") && !HasPrefix(Ext(flowFilePath), ".u")
    ensures var r := ForcingUpdate(st, flowFilePath, steadyParser, unsteadyParser);
      var next, err := r.0, r.1;
      err == None && next.steady == st.steady && next.unsteady == st.unsteady &&
      (HasPrefix(Ext(flowFilePath), ".q") ==>
        Base(flowFilePath) in next.quasiUnsteady && next.quasiUnsteady[Base(flowFilePath)] == NotImplemented &&
        forall name | name != Base(flowFilePath) ::
          (name in next.quasiUnsteady <==> name in st.quasiUnsteady) &&
          (name in st.quasiUnsteady ==> next.quasiUnsteady[name] == st.quasiUnsteady[name])) &&
      (!HasPrefix(Ext(flowFilePath), ".q") ==> next == st)
  {
    var e := Ext(flowFilePath);
    assert HasPrefix(e, ".f") <==> e[..2] == ".f";
    assert HasPrefix(e, ".u") <==> e[..2] == ".u";
    assert HasPrefix(e, ".q") <==> e[..2] == ".q";
  }
}
