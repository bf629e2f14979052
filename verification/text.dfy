/** The functions of Go's `strings` package that boot-operator's printers and parsers use. */
module Text {

  function HasPrefix(s: string, prefix: string): bool {
    prefix <= s
  }

  predicate HasSuffix(s: string, suffix: string) {
    |suffix| <= |s| && s[|s| - |suffix|..] == suffix
  }

  function TrimPrefix(s: string, prefix: string): string {
    if HasPrefix(s, prefix) then s[|prefix|..] else s
  }

  function TrimSuffix(s: string, suffix: string): string {
    if HasSuffix(s, suffix) then s[..|s| - |suffix|] else s
  }

  /** The first position of `c` from `from` on, -1 without one. */
  function IndexFrom(s: string, c: char, from: nat): (i: int)
    requires from <= |s|
    ensures i == -1 || (from <= i < |s| && s[i] == c)
    ensures forall k :: from <= k < (if i == -1 then |s| else i) ==> s[k] != c
    decreases |s| - from
  {
    if from == |s| then -1 else if s[from] == c then from else IndexFrom(s, c, from + 1)
  }

  function Index(s: string, c: char): int {
    IndexFrom(s, c, 0)
  }

  /** The last position of `c` below `n`, -1 without one. */
  function LastIndexBelow(s: string, c: char, n: nat): (i: int)
    requires n <= |s|
    ensures i == -1 || (0 <= i < n && s[i] == c)
    ensures forall k :: i < k < n ==> s[k] != c
  {
    if n == 0 then -1 else if s[n - 1] == c then n - 1 else LastIndexBelow(s, c, n - 1)
  }

  function LastIndex(s: string, c: char): int {
    LastIndexBelow(s, c, |s|)
  }

  predicate MatchesAt(s: string, pattern: string, i: nat) {
    i + |pattern| <= |s| && s[i..i + |pattern|] == pattern
  }

  /** The first position from `from` on where `pattern` occurs, -1 without one. */
  function SearchFrom(s: string, pattern: string, from: nat): (i: int)
    requires from <= |s|
    ensures i == -1 || (from <= i && MatchesAt(s, pattern, i))
    ensures forall j: nat :: from <= j < (if i >= 0 then i else |s| + 1) ==> !MatchesAt(s, pattern, j)
    decreases |s| - from
  {
    if MatchesAt(s, pattern, from) then from
    else if from == |s| then -1
    else SearchFrom(s, pattern, from + 1)
  }

  function Search(s: string, pattern: string): int {
    SearchFrom(s, pattern, 0)
  }

  datatype Pieces = Pieces(before: string, after: string, found: bool)

  /** `Cut` at the first `c`. */
  function Cut(s: string, c: char): (p: Pieces)
    ensures c !in p.before
    ensures s == if p.found then p.before + [c] + p.after else p.before
    ensures p.found <==> c in s
  {
    var i := Index(s, c);
    if i == -1 then Pieces(s, "", false) else Pieces(s[..i], s[i + 1..], true)
  }

  lemma CutAt(before: string, c: char, after: string)
    requires c !in before
    ensures Cut(before + [c] + after, c) == Pieces(before, after, true)
  {
    var s := before + [c] + after;
    var i := Index(s, c);
    assert s[|before|] == c && forall k :: 0 <= k < |before| ==> s[k] == before[k];
    assert i == |before|;
    assert s[..i] == before && s[i + 1..] == after;
  }

  /** `Split`: never empty. */
  function Split(s: string, sep: char): (parts: seq<string>)
    ensures parts != []
    decreases |s|
  {
    var cut := Cut(s, sep);
    if cut.found then [cut.before] + Split(cut.after, sep) else [s]
  }

  function Join(parts: seq<string>, sep: char): string {
    if parts == [] then ""
    else if |parts| == 1 then parts[0]
    else parts[0] + [sep] + Join(parts[1..], sep)
  }

  lemma SplitCons(part: string, sep: char, rest: string)
    requires sep !in part
    ensures Split(part + [sep] + rest, sep) == [part] + Split(rest, sep)
  {
    CutAt(part, sep, rest);
  }

  lemma JoinCons(part: string, parts: seq<string>, sep: char)
    requires parts != []
    ensures Join([part] + parts, sep) == part + [sep] + Join(parts, sep)
  {
    assert ([part] + parts)[1..] == parts;
  }

  lemma {:induction false} SplitFree(s: string, sep: char)
    ensures forall part :: part in Split(s, sep) ==> sep !in part
    decreases |s|
  {
    if sep in s { SplitFree(Cut(s, sep).after, sep); }
  }

  /** Joining undoes splitting. */
  lemma {:induction false} JoinSplit(s: string, sep: char)
    ensures Join(Split(s, sep), sep) == s
    decreases |s|
  {
    var cut := Cut(s, sep);
    if cut.found {
      JoinSplit(cut.after, sep);
      JoinCons(cut.before, Split(cut.after, sep), sep);
    }
  }

  /** Splitting undoes joining, for one or more parts without the separator. */
  lemma {:induction false} SplitJoin(parts: seq<string>, sep: char)
    requires parts != [] && forall part :: part in parts ==> sep !in part
    ensures Split(Join(parts, sep), sep) == parts
  {
    if |parts| > 1 {
      SplitJoin(parts[1..], sep);
      SplitCons(parts[0], sep, Join(parts[1..], sep));
    } else {
      assert parts == [parts[0]];
    }
  }

  lemma Regroup(part: string, sep: char, a: string, b: string)
    ensures part + [sep] + a + [sep] + b == part + [sep] + (a + [sep] + b)
  {
  }

  /** Splitting distributes over a separator. */
  lemma {:induction false} SplitConcat(a: string, sep: char, b: string)
    ensures Split(a + [sep] + b, sep) == Split(a, sep) + Split(b, sep)
    decreases |a|
  {
    var cut := Cut(a, sep);
    if cut.found {
      SplitConcat(cut.after, sep, b);
      Regroup(cut.before, sep, cut.after, b);
      SplitCons(cut.before, sep, cut.after + [sep] + b);
    } else {
      SplitCons(a, sep, b);
    }
  }

  // ----- Case and space, for ASCII ----------------------------------------------------------------------

  function LowerChar(c: char): char {
    if 'A' <= c <= 'Z' then c - 'A' + 'a' else c
  }

  function ToLower(s: string): (r: string)
    ensures |r| == |s|
    ensures forall i :: 0 <= i < |s| ==> r[i] == LowerChar(s[i])
  {
    if s == "" then "" else [LowerChar(s[0])] + ToLower(s[1..])
  }

  predicate IsSpace(c: char) {
    c == ' ' || '\t' as int <= c as int <= '\r' as int
  }

  function TrimLeft(s: string): string {
    if s != "" && IsSpace(s[0]) then TrimLeft(s[1..]) else s
  }

  function TrimRight(s: string): string {
    if s != "" && IsSpace(s[|s| - 1]) then TrimRight(s[..|s| - 1]) else s
  }

  function TrimSpace(s: string): string {
    TrimRight(TrimLeft(s))
  }
}
