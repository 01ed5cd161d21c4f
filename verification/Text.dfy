/** The string operations that the parsers use, on ASCII text. */
module Text {
  function LowerChar(c: char): char {
    if 'A' <= c <= 'Z' then c - 'A' + 'a' else c
  }

  function ToLower(s: string): (r: string)
    ensures |r| == |s| && forall i :: 0 <= i < |s| ==> r[i] == LowerChar(s[i])
  {
    seq(|s|, i requires 0 <= i < |s| => LowerChar(s[i]))
  }

  function UpperChar(c: char): char {
    if 'a' <= c <= 'z' then c - 'a' + 'A' else c
  }

  function ToUpper(s: string): (r: string)
    ensures |r| == |s| && forall i :: 0 <= i < |s| ==> r[i] == UpperChar(s[i])
  {
    seq(|s|, i requires 0 <= i < |s| => UpperChar(s[i]))
  }

  predicate IsSpace(c: char) {
    c == ' ' || c == '\t' || c == '\n' || c == '\r' || c == 11 as char || c == 12 as char
  }

  /** Where the space that starts at `i` ends. */
  function SpaceEnd(s: string, i: nat): (r: nat)
    requires i <= |s|
    ensures i <= r <= |s| && (r < |s| ==> !IsSpace(s[r]))
    ensures forall j :: i <= j < r ==> IsSpace(s[j])
    decreases |s| - i
  {
    if i < |s| && IsSpace(s[i]) then SpaceEnd(s, i + 1) else i
  }

  /** Where the space that ends at `n` starts. */
  function SpaceStart(s: string, n: nat): (r: nat)
    requires n <= |s|
    ensures r <= n && (r > 0 ==> !IsSpace(s[r - 1]))
    ensures forall j :: r <= j < n ==> IsSpace(s[j])
  {
    if n > 0 && IsSpace(s[n - 1]) then SpaceStart(s, n - 1) else n
  }

  function TrimLeft(s: string): string {
    s[SpaceEnd(s, 0)..]
  }

  function TrimRight(s: string): string {
    s[..SpaceStart(s, |s|)]
  }

  function TrimSpace(s: string): string {
    TrimRight(TrimLeft(s))
  }

  /** A text without space at its ends, and not empty. */
  predicate Tight(s: string) {
    s != "" && !IsSpace(s[0]) && !IsSpace(s[|s| - 1])
  }

  predicate AllSpace(s: string) {
    forall i :: 0 <= i < |s| ==> IsSpace(s[i])
  }

  /** What trimming takes away is space at both ends, and none is left. */
  lemma TrimSplits(s: string) returns (lead: string, tail: string)
    ensures s == lead + TrimSpace(s) + tail && AllSpace(lead) && AllSpace(tail)
    ensures TrimSpace(s) == "" || Tight(TrimSpace(s))
  {
    var from := SpaceEnd(s, 0);
    var rest := s[from..];
    var to := SpaceStart(rest, |rest|);
    lead, tail := s[..from], rest[to..];
    assert rest == rest[..to] + tail;
    if to > 0 {
      assert rest[..to][0] == s[from];
    }
  }

  /** A text that ends without space is trimmed in front only. */
  lemma TrimsInFront(s: string) returns (lead: string)
    requires s != "" && !IsSpace(s[|s| - 1])
    ensures s == lead + TrimSpace(s) && AllSpace(lead) && Tight(TrimSpace(s))
  {
    hide SpaceEnd, SpaceStart, IsSpace;
    var from := SpaceEnd(s, 0);
    var rest := s[from..];
    lead := s[..from];
    assert from < |s|;
    assert rest[|rest| - 1] == s[|s| - 1] && rest[0] == s[from];
    NothingBehind(rest);
    assert rest[..|rest|] == rest;
    assert s == lead + rest;
  }

  lemma NothingBehind(s: string)
    requires s != "" && !IsSpace(s[|s| - 1])
    ensures SpaceStart(s, |s|) == |s|
  {
  }

  lemma TrimOf(lead: string, t: string, tail: string)
    requires AllSpace(lead) && AllSpace(tail) && Tight(t)
    ensures TrimSpace(lead + t + tail) == t
  {
    var s := lead + t + tail;
    assert s[|lead|] == t[0];
    assert SpaceEnd(s, 0) == |lead|;
    var rest := t + tail;
    assert s[|lead|..] == rest;
    assert rest[|t| - 1] == t[|t| - 1];
    assert SpaceStart(rest, |rest|) == |t|;
  }

  /** Trimming drops the space in front of a text that neither starts nor ends with space. */
  lemma TrimsTo(raw: string, i: nat, line: string)
    requires i < |raw| && line == raw[i..] && forall j :: 0 <= j < i ==> IsSpace(raw[j])
    requires !IsSpace(raw[i]) && !IsSpace(raw[|raw| - 1])
    ensures TrimSpace(raw) == line
  {
    assert SpaceEnd(raw, 0) == i;
    assert line[|line| - 1] == raw[|raw| - 1];
    assert SpaceStart(line, |line|) == |line|;
  }

  predicate HasPrefix(s: string, p: string) {
    p <= s
  }

  predicate HasSuffix(s: string, p: string) {
    |p| <= |s| && s[|s| - |p|..] == p
  }

  function TrimPrefix(s: string, p: string): string {
    if HasPrefix(s, p) then s[|p|..] else s
  }

  function TrimSuffix(s: string, p: string): string {
    if HasSuffix(s, p) then s[..|s| - |p|] else s
  }

  /** In lower case and without the dot that may stand at its end. */
  lemma DotDropped(host: string, dot: string)
    requires host != "" && host[|host| - 1] != '.' && dot in ["", "."]
    ensures TrimSuffix(ToLower(host + dot), ".") == ToLower(host)
  {
    var lower := ToLower(host + dot);
    assert lower == ToLower(host) + dot;
    if dot == "" {
      assert lower[|lower| - 1..][0] == LowerChar(host[|host| - 1]);
    } else {
      assert lower[|lower| - 1..] == "." && lower[..|lower| - 1] == ToLower(host);
    }
  }

  predicate OccursAt(s: string, p: string, i: nat) {
    i + |p| <= |s| && s[i..i + |p|] == p
  }

  predicate Contains(s: string, p: string) {
    exists i :: 0 <= i <= |s| && OccursAt(s, p, i)
  }

  function IndexFrom(s: string, c: char, i: nat): (r: int)
    requires i <= |s|
    ensures r == -1 || (i <= r < |s| && s[r] == c)
    ensures forall j :: i <= j < (if r == -1 then |s| else r) ==> s[j] != c
    decreases |s| - i
  {
    if i == |s| then -1 else if s[i] == c then i else IndexFrom(s, c, i + 1)
  }

  /** Position of the first `c`, or -1. */
  function Index(s: string, c: char): (r: int)
    ensures r == -1 || (0 <= r < |s| && s[r] == c)
    ensures forall j :: 0 <= j < (if r == -1 then |s| else r) ==> s[j] != c
  {
    IndexFrom(s, c, 0)
  }

  function LastIndexBefore(s: string, c: char, n: nat): (r: int)
    requires n <= |s|
    ensures -1 <= r < n && (r >= 0 ==> s[r] == c)
    ensures forall j :: r < j < n ==> s[j] != c
  {
    if n == 0 then -1 else if s[n - 1] == c then n - 1 else LastIndexBefore(s, c, n - 1)
  }

  /** Position of the last `c`, or -1. */
  function LastIndex(s: string, c: char): (r: int)
    ensures -1 <= r < |s| && (r >= 0 ==> s[r] == c)
    ensures forall j :: r < j < |s| ==> s[j] != c
  {
    LastIndexBefore(s, c, |s|)
  }

  /** The pieces of `s` between occurrences of `c`; at least one. */
  function Split(s: string, c: char): (r: seq<string>)
    ensures |r| >= 1
    ensures forall i :: 0 <= i < |r| ==> c !in r[i]
  {
    var i := Index(s, c);
    if i == -1 then [s] else [s[..i]] + Split(s[i + 1..], c)
  }
}
