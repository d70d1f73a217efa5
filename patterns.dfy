/** The file-extension patterns of the model assembler (the `rasRE` matchers). Each is a
    fixed-length regular expression made only of character classes, and Go's
    `MatchString` looks for it anywhere in the text: no anchors. */
module Patterns {

  /** One position of a pattern: `.` (any character but a newline), a literal
      character, a bracket class such as `[fqu]`, or `[0-9]`. */
  datatype CharClass = AnyChar | Lit(c: char) | OneOf(cs: string) | Digit

  predicate Accepts(k: CharClass, c: char) {
    match k
    case AnyChar => c != '\n'
    case Lit(d) => c == d
    case OneOf(cs) => c in cs
    case Digit => '0' <= c <= '9'
  }

  type Pattern = seq<CharClass>

  /** The pattern matches the text starting at offset `i`. */
  predicate MatchesAt(p: Pattern, s: string, i: int) {
    0 <= i && i + |p| <= |s| && forall j | 0 <= j < |p| :: Accepts(p[j], s[i + j])
  }

  /** regexp.MatchString for a pattern of classes: a match at some offset. */
  predicate MatchString(p: Pattern, s: string) {
    exists i | 0 <= i <= |s| - |p| :: MatchesAt(p, s, i)
  }

  const Geom: Pattern := [AnyChar, Lit('g'), Digit, Digit]
  const Plan: Pattern := [AnyChar, Lit('p'), Digit, Digit]
  const Steady: Pattern := [AnyChar, Lit('f'), Digit, Digit]
  const Unsteady: Pattern := [AnyChar, Lit('u'), Digit, Digit]
  const QuasiSteady: Pattern := [AnyChar, Lit('q'), Digit, Digit]
  const AllFlow: Pattern := [AnyChar, OneOf("fqu"), Digit, Digit]
  const Output: Pattern := [AnyChar, Lit('O'), Digit, Digit]
  const SteadyRun: Pattern := [AnyChar, Lit('r'), Digit, Digit]
  const UnsteadyRun: Pattern := [AnyChar, Lit('x'), Digit, Digit]
  const AllFlowRun: Pattern := [AnyChar, OneOf("rx"), Digit, Digit]
  const Projection: Pattern := [AnyChar, Lit('p'), Lit('r'), OneOf("oj")]

  /** What a match of a single-letter extension pattern says about the matched text. */
  lemma {:induction false} AtPosition1(s: string, i: int, c: char)
    requires MatchesAt([AnyChar, Lit(c), Digit, Digit], s, i)
    ensures s[i + 1] == c && s[i] != '\n' && '0' <= s[i + 2] <= '9' && '0' <= s[i + 3] <= '9'
  {
    assert Accepts([AnyChar, Lit(c), Digit, Digit][0], s[i + 0]);
    assert Accepts([AnyChar, Lit(c), Digit, Digit][1], s[i + 1]);
    assert Accepts([AnyChar, Lit(c), Digit, Digit][2], s[i + 2]);
    assert Accepts([AnyChar, Lit(c), Digit, Digit][3], s[i + 3]);
  }

  /** The combined flow pattern matches exactly when one of the steady, unsteady and
      quasi-steady patterns does. */
  lemma {:induction false} AllFlowIsUnion(s: string)
    ensures MatchString(AllFlow, s) <==>
      MatchString(Steady, s) || MatchString(Unsteady, s) || MatchString(QuasiSteady, s)
  {
    if MatchString(AllFlow, s) {
      var i :| 0 <= i <= |s| - |AllFlow| && MatchesAt(AllFlow, s, i);
      assert i + 4 <= |s| && forall j | 0 <= j < 4 :: Accepts(AllFlow[j], s[i + j]);
      assert Accepts(AllFlow[1], s[i + 1]);
      var c := s[i + 1];
      assert c in "fqu";
      var p: Pattern := [AnyChar, Lit(c), Digit, Digit];
      forall j | 0 <= j < |p| ensures Accepts(p[j], s[i + j]) {
        assert Accepts(AllFlow[j], s[i + j]);
      }
      assert MatchesAt(p, s, i);
    }
    if MatchString(Steady, s) || MatchString(Unsteady, s) || MatchString(QuasiSteady, s) {
      var c := if MatchString(Steady, s) then 'f' else if MatchString(Unsteady, s) then 'u' else 'q';
      var p: Pattern := [AnyChar, Lit(c), Digit, Digit];
      var i :| 0 <= i <= |s| - |p| && MatchesAt(p, s, i);
      AtPosition1(s, i, c);
      assert MatchesAt(AllFlow, s, i);
    }
  }

  /** The combined run-file pattern matches exactly when the steady-run or the
      unsteady-run pattern does. */
  lemma {:induction false} AllFlowRunIsUnion(s: string)
    ensures MatchString(AllFlowRun, s) <==> MatchString(SteadyRun, s) || MatchString(UnsteadyRun, s)
  {
    if MatchString(AllFlowRun, s) {
      var i :| 0 <= i <= |s| - |AllFlowRun| && MatchesAt(AllFlowRun, s, i);
      assert i + 4 <= |s| && forall j | 0 <= j < 4 :: Accepts(AllFlowRun[j], s[i + j]);
      assert Accepts(AllFlowRun[1], s[i + 1]);
      var c := s[i + 1];
      assert c in "rx";
      var p: Pattern := [AnyChar, Lit(c), Digit, Digit];
      forall j | 0 <= j < |p| ensures Accepts(p[j], s[i + j]) {
        assert Accepts(AllFlowRun[j], s[i + j]);
      }
      assert MatchesAt(p, s, i);
    }
    if MatchString(SteadyRun, s) || MatchString(UnsteadyRun, s) {
      var c := if MatchString(SteadyRun, s) then 'r' else 'x';
      var p: Pattern := [AnyChar, Lit(c), Digit, Digit];
      var i :| 0 <= i <= |s| - |p| && MatchesAt(p, s, i);
      AtPosition1(s, i, c);
      assert MatchesAt(AllFlowRun, s, i);
    }
  }

  /** No anchors: a match anywhere inside a longer text counts, so a text that merely
      contains a matching piece matches. */
  lemma {:induction false} MatchInside(p: Pattern, a: string, s: string, b: string)
    requires MatchString(p, s)
    ensures MatchString(p, a + s + b)
  {
    var i :| 0 <= i <= |s| - |p| && MatchesAt(p, s, i);
    var t := a + s + b;
    assert i + |p| <= |s| && forall j | 0 <= j < |p| :: Accepts(p[j], s[i + j]);
    forall j | 0 <= j < |p| ensures Accepts(p[j], t[|a| + i + j]) {
      assert t[|a| + i + j] == s[i + j];
    }
    assert MatchesAt(p, t, |a| + i);
  }
}
