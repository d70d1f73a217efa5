/** The parts of Go's `strings`, `path/filepath` and `strconv` packages that the
    parsers rely on, on `seq<char>` strings (one char per code point). */
module GoStrings {

  /** One line as a line scanner yields it: never holds a newline. */
  type Line = s: string | '\n' !in s witness ""

  predicate HasPrefix(s: string, p: string) {
    |p| <= |s| && s[..|p|] == p
  }

  predicate HasSuffix(s: string, p: string) {
    |p| <= |s| && s[|s| - |p|..] == p
  }

  /** strings.Contains: some suffix of `s` starts with `sub`. */
  predicate Contains(s: string, sub: string)
    decreases |s|
  {
    HasPrefix(s, sub) || (|s| > 0 && Contains(s[1..], sub))
  }

  lemma {:induction false} PrefixChar(s: string, p: string, c: char)
    requires HasPrefix(s, p) && c in p
    ensures c in s
  {
    var k :| 0 <= k < |p| && p[k] == c;
    assert s[k] == c;
  }

  /** Two prefixes that differ at some position never both begin one text. */
  lemma PrefixesDiffer(s: string, p: string, q: string, k: nat)
    requires k < |p| && k < |q| && p[k] != q[k] && HasPrefix(s, p)
    ensures !HasPrefix(s, q)
  {
    assert s[k] == s[..|p|][k];
  }

  /** strings.Contains with a one-character needle is membership. */
  lemma {:induction false} ContainsChar(s: string, c: char)
    ensures Contains(s, [c]) <==> c in s
  {
    if |s| > 0 {
      ContainsChar(s[1..], c);
      assert s == [s[0]] + s[1..];
    }
  }

  lemma {:induction false} PrefixContains(s: string, p: string, sub: string)
    requires HasPrefix(s, p) && Contains(p, sub)
    ensures Contains(s, sub)
    decreases |p|
  {
    if HasPrefix(p, sub) {
      assert s[..|sub|] == p[..|sub|];
    } else {
      assert |p| > 0 && Contains(p[1..], sub);
      assert s[1..][..|p| - 1] == p[1..];
      PrefixContains(s[1..], p[1..], sub);
    }
  }

  /** The index of the first occurrence of `c` in `s`. */
  function IndexOf(s: string, c: char): (i: nat)
    requires c in s
    ensures i < |s| && s[i] == c && c !in s[..i]
  {
    if s[0] == c then 0 else 1 + IndexOf(s[1..], c)
  }

  /** A text that starts with `p` has its first `c` where `p` has it, when `p` holds one. */
  lemma PrefixIndexOf(s: string, p: string, c: char)
    requires HasPrefix(s, p) && c in p
    ensures c in s && IndexOf(s, c) == IndexOf(p, c)
  {
    PrefixChar(s, p, c);
    var i, j := IndexOf(p, c), IndexOf(s, c);
    assert s[..i] == p[..i] && s[i] == c;
  }

  /** strings.Split with a one-character separator: the maximal separator-free pieces,
      in order; one piece when the separator does not occur. */
  function Split(s: string, sep: char): (r: seq<string>)
    ensures |r| >= 1 && (|r| >= 2 <==> sep in s)
    ensures forall k | 0 <= k < |r| :: sep !in r[k]
    decreases |s|
  {
    if sep !in s then [s]
    else
      var i := IndexOf(s, sep);
      [s[..i]] + Split(s[i + 1..], sep)
  }

  /** Field 1 of a split is exactly the text between the first and the second
      separator (or the end of the string). */
  lemma {:induction false} SplitSecondField(s: string, sep: char)
    requires sep in s
    ensures var r := Split(s, sep); var i := IndexOf(s, sep);
      |r| >= 2 && r[0] == s[..i] && sep !in r[0] &&
      HasPrefix(s[i + 1..], r[1]) && sep !in r[1] &&
      (i + 1 + |r[1]| == |s| || s[i + 1 + |r[1]|] == sep)
  {
    var i := IndexOf(s, sep);
    var t := s[i + 1..];
    if sep in t {
      var j := IndexOf(t, sep);
      assert Split(t, sep)[0] == t[..j];
    } else {
      assert Split(t, sep) == [t];
    }
  }

  /** strings.Split(s, sep)[1]: the text between the first separator and the next one
      (or the end of the string). */
  function SecondField(s: string, sep: char): (r: string)
    requires sep in s
    ensures HasPrefix(s[IndexOf(s, sep) + 1..], r) && sep !in r
    ensures var e := IndexOf(s, sep) + 1 + |r|; e == |s| || s[e] == sep
  {
    SplitSecondField(s, sep);
    Split(s, sep)[1]
  }

  /** strings.Join: the parts with `sep` between neighbours and nothing after the last. */
  function JoinWith(parts: seq<string>, sep: string): string
  {
    if |parts| == 0 then ""
    else if |parts| == 1 then parts[0]
    else JoinWith(parts[..|parts| - 1], sep) + sep + parts[|parts| - 1]
  }

  /** Every part followed by `sep`: what a loop of `s += part + sep` builds. */
  function Terminated(parts: seq<string>, sep: string): string
  {
    if |parts| == 0 then "" else Terminated(parts[..|parts| - 1], sep) + parts[|parts| - 1] + sep
  }

  lemma {:induction false} JoinWithCons(p: string, rest: seq<string>, sep: string)
    requires rest != []
    ensures JoinWith([p] + rest, sep) == p + sep + JoinWith(rest, sep)
    decreases |rest|
  {
    var all := [p] + rest;
    if |rest| == 1 {
      assert all[..1] == [p];
    } else {
      assert all[..|all| - 1] == [p] + rest[..|rest| - 1];
      JoinWithCons(p, rest[..|rest| - 1], sep);
    }
  }

  /** Dropping the final separator of a terminated concatenation gives the join, and the
      terminated text is at least one separator long exactly when there is a part. */
  lemma {:induction false} TrimTerminated(parts: seq<string>, sep: string)
    ensures |sep| > 0 ==> (|Terminated(parts, sep)| >= |sep| <==> parts != [])
    ensures parts != [] ==>
      |Terminated(parts, sep)| >= |sep| &&
      Terminated(parts, sep)[..|Terminated(parts, sep)| - |sep|] == JoinWith(parts, sep)
    decreases |parts|
  {
    if parts != [] {
      var init := parts[..|parts| - 1];
      var t := Terminated(parts, sep);
      assert t == Terminated(init, sep) + parts[|parts| - 1] + sep;
      assert t[..|t| - |sep|] == Terminated(init, sep) + parts[|parts| - 1];
      if init != [] {
        TrimTerminated(init, sep);
        var ti := Terminated(init, sep);
        assert ti == ti[..|ti| - |sep|] + sep;
      }
    }
  }

  /** Joining the pieces of a split gives the string back. */
  lemma {:induction false} JoinSplit(s: string, sep: char)
    ensures JoinWith(Split(s, sep), [sep]) == s
    decreases |s|
  {
    if sep in s {
      var i := IndexOf(s, sep);
      var head, tail := s[..i], s[i + 1..];
      SplitUnfold(s, sep);
      JoinSplit(tail, sep);
      JoinWithCons(head, Split(tail, sep), [sep]);
      Around(s, i);
    }
  }

  lemma SplitUnfold(s: string, sep: char)
    requires sep in s
    ensures Split(s, sep) == [s[..IndexOf(s, sep)]] + Split(s[IndexOf(s, sep) + 1..], sep)
  {
  }

  /** A text is what comes before position `i`, the character there and what follows. */
  lemma Around(s: string, i: nat)
    requires i < |s|
    ensures s == s[..i] + [s[i]] + s[i + 1..]
  {
    assert s[i..] == [s[i]] + s[i + 1..];
    assert s == s[..i] + s[i..];
  }

  /** Splitting a join of separator-free parts gives the parts back. */
  lemma {:induction false} SplitJoin(parts: seq<string>, sep: char)
    requires parts != []
    requires forall k | 0 <= k < |parts| :: sep !in parts[k]
    ensures Split(JoinWith(parts, [sep]), sep) == parts
    decreases |parts|
  {
    if |parts| == 1 {
    } else {
      var rest := parts[1..];
      assert parts == [parts[0]] + rest;
      JoinWithCons(parts[0], rest, [sep]);
      var s := JoinWith(parts, [sep]);
      assert s == parts[0] + [sep] + JoinWith(rest, [sep]);
      assert s[|parts[0]|] == sep;
      assert s[..|parts[0]|] == parts[0];
      assert IndexOf(s, sep) == |parts[0]| by {
        IndexOfAt(s, sep, |parts[0]|);
      }
      assert s[|parts[0]| + 1..] == JoinWith(rest, [sep]);
      SplitJoin(rest, sep);
    }
  }

  lemma {:induction false} IndexOfAt(s: string, c: char, i: nat)
    requires i < |s| && s[i] == c && c !in s[..i]
    ensures IndexOf(s, c) == i
  {
  }

  /** unicode.IsSpace */
  predicate IsSpace(c: char) {
    if c < '\U{0085}' then c == ' ' || '\t' <= c <= '\r' else WideSpace(c)
  }

  predicate WideSpace(c: char) {
    c == '\U{0085}' || c == '\U{00A0}' || c == '\U{1680}' || ('\U{2000}' <= c <= '\U{200A}') ||
    c == '\U{2028}' || c == '\U{2029}' || c == '\U{202F}' || c == '\U{205F}' || c == '\U{3000}'
  }

  function TrimLeft(s: string): (r: string)
    ensures r == "" || !IsSpace(r[0])
  {
    if |s| > 0 && IsSpace(s[0]) then TrimLeft(s[1..]) else s
  }

  function TrimRight(s: string): (r: string)
    ensures r == "" || !IsSpace(r[|r| - 1])
  {
    if |s| > 0 && IsSpace(s[|s| - 1]) then TrimRight(s[..|s| - 1]) else s
  }

  /** strings.TrimSpace: the string without its leading and trailing white space. */
  function TrimSpace(s: string): (r: string)
  {
    TrimRight(TrimLeft(s))
  }

  function TrimSuffix(s: string, suffix: string): string
  {
    if HasSuffix(s, suffix) then s[..|s| - |suffix|] else s
  }

  function TrimPrefix(s: string, prefix: string): string
  {
    if HasPrefix(s, prefix) then s[|prefix|..] else s
  }

  /** filepath.Ext: the suffix starting at the last '.' of the final path element,
      or "" when that element has no '.'. */
  function Ext(path: string): (e: string)
    ensures e == "" || (e[0] == '.' && HasSuffix(path, e) && '/' !in e && '.' !in e[1..])
  {
    if |path| == 0 || path[|path| - 1] == '/' then ""
    else if path[|path| - 1] == '.' then "."
    else
      var e := Ext(path[..|path| - 1]);
      if e == "" then "" else e + [path[|path| - 1]]
  }

  function StripTrailingSlashes(s: string): (r: string)
    ensures r == "" || r[|r| - 1] != '/'
  {
    if |s| > 0 && s[|s| - 1] == '/' then StripTrailingSlashes(s[..|s| - 1]) else s
  }

  /** The text after the last '/' of `s` (all of `s` when it has none). */
  function AfterLastSlash(s: string): (r: string)
    ensures '/' !in r && HasSuffix(s, r)
  {
    if |s| == 0 || s[|s| - 1] == '/' then ""
    else AfterLastSlash(s[..|s| - 1]) + [s[|s| - 1]]
  }

  /** The text up to and including the last '/' of `s` ("" when it has none). */
  function UpToLastSlash(s: string): string
  {
    if |s| == 0 || s[|s| - 1] == '/' then s else UpToLastSlash(s[..|s| - 1])
  }

  /** filepath.Base: the last element of the path, trailing slashes removed. */
  function Base(path: string): string
  {
    if path == "" then "."
    else
      var t := StripTrailingSlashes(path);
      if t == "" then "/" else AfterLastSlash(t)
  }

  /** The element stack of filepath.Clean: "" and "." vanish, ".." removes the element
      before it, and a leading ".." is dropped in a rooted path and kept otherwise. */
  function CleanElements(elems: seq<string>, rooted: bool, acc: seq<string>): seq<string>
    decreases |elems|
  {
    if elems == [] then acc
    else
      var e := elems[0];
      if e == "" || e == "." then CleanElements(elems[1..], rooted, acc)
      else if e == ".." then
        if |acc| > 0 && acc[|acc| - 1] != ".." then CleanElements(elems[1..], rooted, acc[..|acc| - 1])
        else if rooted then CleanElements(elems[1..], rooted, acc)
        else CleanElements(elems[1..], rooted, acc + [e])
      else CleanElements(elems[1..], rooted, acc + [e])
  }

  /** filepath.Clean on a separator '/'. */
  function Clean(path: string): string
  {
    if path == "" then "."
    else
      var rooted := path[0] == '/';
      var joined := JoinWith(CleanElements(Split(path, '/'), rooted, []), "/");
      if rooted then "/" + joined
      else if joined == "" then "."
      else joined
  }

  /** filepath.Dir: everything but the last element, cleaned. */
  function Dir(path: string): string
  {
    Clean(UpToLastSlash(path))
  }

  /** filepath.Join of two elements. */
  function PathJoin(a: string, b: string): string
  {
    if a == "" && b == "" then ""
    else if a == "" then Clean(b)
    else Clean(a + "/" + b)
  }

  function DigitChar(d: nat): char
    requires d < 10
  {
    "0123456789"[d]
  }

  function NatToString(n: nat): (s: string)
    ensures |s| >= 1
    decreases n
  {
    if n < 10 then [DigitChar(n)] else NatToString(n / 10) + [DigitChar(n % 10)]
  }

  /** strconv.FormatInt(n, 10). */
  function IntToString(n: int): string
  {
    if n < 0 then "-" + NatToString(-n) else NatToString(n)
  }
}
