/** Which domain names are accepted, and the last label that routes a lookup. */
module DomainNames {
  import opened CacheTypes
  import opened Text

  datatype NameError = EmptyDomain | DomainTooLong | LabelTooLong | InvalidDomainChar | InvalidLabelStart

  const MAX_DOMAIN_LENGTH := 253
  const MAX_LABEL_LENGTH := 63

  predicate IsAlnum(c: char) {
    'a' <= c <= 'z' || '0' <= c <= '9'
  }

  /** The label pattern of RFC 1123: letters and digits, with hyphens inside. */
  predicate MatchesLabel(part: string) {
    && part != ""
    && IsAlnum(part[0]) && IsAlnum(part[|part| - 1])
    && forall i :: 0 <= i < |part| ==> IsAlnum(part[i]) || part[i] == '-'
  }

  predicate GoodLabel(part: string) {
    |part| <= MAX_LABEL_LENGTH && MatchesLabel(part)
  }

  /** What is said about a label that is not good. */
  predicate Complains(part: string, e: NameError) {
    match e
    case LabelTooLong => |part| > 63
    case InvalidLabelStart => 0 < |part| <= 63 && (part[0] == '-' || part[|part| - 1] == '-')
    case InvalidDomainChar =>
      part == "" ||
      (|part| <= 63 && part[0] != '-' && part[|part| - 1] != '-' &&
        exists i :: 0 <= i < |part| && !IsAlnum(part[i]) && part[i] != '-')
    case _ => false
  }

  /** A text that is no label has a hyphen at one end or a wrong character. */
  lemma NoLabel(part: string)
    requires 0 < |part| <= MAX_LABEL_LENGTH && !MatchesLabel(part)
    ensures if HasPrefix(part, "-") || HasSuffix(part, "-") then Complains(part, InvalidLabelStart)
      else Complains(part, InvalidDomainChar)
  {
    assert part[..1] == [part[0]] && part[|part| - 1..] == [part[|part| - 1]];
  }

  function Normalized(name: string): string {
    TrimSuffix(ToLower(name), ".")
  }

  function Labels(name: string): (r: seq<string>)
    ensures |r| >= 1
  {
    Split(Normalized(name), '.')
  }

  /** A name is accepted when it is short enough and all its labels are good. */
  predicate Acceptable(name: string) {
    && name != ""
    && |Normalized(name)| <= MAX_DOMAIN_LENGTH
    && forall i :: 0 <= i < |Labels(name)| ==> GoodLabel(Labels(name)[i])
  }

  ghost predicate FirstBad(labels: seq<string>, i: int) {
    && 0 <= i < |labels| && !GoodLabel(labels[i])
    && forall j :: 0 <= j < i ==> GoodLabel(labels[j])
  }

  /** Accepts exactly the acceptable names, and otherwise reports the first label that is not good. */
  method ValidateDomain(name: string) returns (r: Option<NameError>)
    ensures r == None <==> Acceptable(name)
    ensures r == Some(EmptyDomain) <==> name == ""
    ensures r == Some(DomainTooLong) <==> name != "" && |Normalized(name)| > MAX_DOMAIN_LENGTH
    ensures name != "" && |Normalized(name)| <= MAX_DOMAIN_LENGTH && r != None ==>
      exists i :: FirstBad(Labels(name), i) && Complains(Labels(name)[i], r.value)
  {
    if name == "" {
      return Some(EmptyDomain);
    }
    var normalized := TrimSuffix(ToLower(name), ".");
    if |normalized| > MAX_DOMAIN_LENGTH {
      return Some(DomainTooLong);
    }
    var labels := Split(normalized, '.');
    for i := 0 to |labels|
      invariant forall j :: 0 <= j < i ==> GoodLabel(labels[j])
    {
      var part := labels[i];
      assert !GoodLabel(part) ==> FirstBad(Labels(name), i);
      if part == "" {
        return Some(InvalidDomainChar);
      }
      if |part| > MAX_LABEL_LENGTH {
        return Some(LabelTooLong);
      }
      if !MatchesLabel(part) {
        NoLabel(part);
        if HasPrefix(part, "-") || HasSuffix(part, "-") {
          return Some(InvalidLabelStart);
        }
        return Some(InvalidDomainChar);
      }
    }
    r := None;
  }

  lemma JudgedAlike(a: string, b: string)
    requires a != "" && b != "" && Normalized(a) == Normalized(b)
    ensures Acceptable(a) <==> Acceptable(b)
  {
    hide Normalized, GoodLabel, Split;
    assert Labels(a) == Labels(b);
  }

  lemma LowerTwice(s: string)
    ensures ToLower(ToLower(s)) == ToLower(s)
  {
    var lower, twice := ToLower(s), ToLower(ToLower(s));
    forall i | 0 <= i < |s| ensures twice[i] == lower[i] {
      assert twice[i] == LowerChar(LowerChar(s[i]));
    }
    assert twice == lower;
  }

  /** Letter case and one dot at the end make no difference to which names are accepted. */
  lemma SpelledAlike(name: string, dot: string)
    requires name != "" && name[|name| - 1] != '.' && dot in ["", "."]
    ensures Acceptable(name + dot) <==> Acceptable(ToLower(name))
  {
    var lower := ToLower(name);
    LowerTwice(name);
    assert lower != "" && lower[|lower| - 1] != '.';
    hide Acceptable, ToLower, TrimSuffix;
    DotDropped(name, dot);
    DotDropped(lower, "");
    assert lower + "" == lower && name + dot != "";
    JudgedAlike(name + dot, lower);
  }

  /** The text behind the last dot. */
  function LastPart(s: string): string {
    s[LastIndex(s, '.') + 1..]
  }

  /** The extractor of the RDAP resolver. */
  function ResolverTLD(domain: string): string {
    LastPart(TrimSuffix(domain, "."))
  }

  /** The extractor of the WHOIS side, which also trims space. */
  function WhoisTLD(domain: string): string {
    LastPart(TrimSpace(TrimSuffix(domain, ".")))
  }

  lemma LastIndexIs(s: string, c: char, k: int)
    requires -1 <= k < |s| && (k >= 0 ==> s[k] == c) && forall i :: k < i < |s| ==> s[i] != c
    ensures LastIndex(s, c) == k
  {
  }

  lemma LastPartOfTail(s: string, i: nat)
    requires i < |s| && s[i] == '.'
    ensures LastPart(s[i + 1..]) == LastPart(s)
  {
    var rest, k := s[i + 1..], LastIndex(s, '.');
    LastIndexIs(rest, '.', k - i - 1);
    assert rest[k - i..] == s[k + 1..];
  }

  function LastOf(pieces: seq<string>): string
    requires pieces != []
  {
    pieces[|pieces| - 1]
  }

  lemma LastOfBehind(first: string, pieces: seq<string>)
    requires pieces != []
    ensures LastOf([first] + pieces) == LastOf(pieces)
  {
  }

  lemma SplitBehind(s: string, i: nat)
    requires i < |s| && Index(s, '.') == i
    ensures Split(s, '.') == [s[..i]] + Split(s[i + 1..], '.')
  {
  }

  lemma {:induction false} LastPartIsLastLabel(s: string)
    ensures LastOf(Split(s, '.')) == LastPart(s)
    decreases |s|
  {
    var i := Index(s, '.');
    if i == -1 {
      LastIndexIs(s, '.', -1);
    } else {
      SplitBehind(s, i);
      LastOfBehind(s[..i], Split(s[i + 1..], '.'));
      LastPartIsLastLabel(s[i + 1..]);
      LastPartOfTail(s, i);
    }
  }

  /** Lower-casing moves no dot. */
  lemma LowerKeepsLastPart(s: string)
    ensures LastPart(ToLower(s)) == ToLower(LastPart(s))
  {
    LastIndexIs(ToLower(s), '.', LastIndex(s, '.'));
  }

  lemma LowerKeepsSuffix(s: string)
    ensures ToLower(TrimSuffix(s, ".")) == TrimSuffix(ToLower(s), ".")
  {
    if s != "" {
      assert s[|s| - 1..] == [s[|s| - 1]];
      assert ToLower(s)[|s| - 1..] == [LowerChar(s[|s| - 1])];
    }
  }

  lemma {:induction false} NoSpaceNoTrim(s: string)
    requires forall i :: 0 <= i < |s| ==> !IsSpace(s[i])
    ensures TrimSpace(s) == s
  {
  }

  /** Every character of a text is in one of its pieces or is the separator. */
  lemma {:induction false} PiecesCover(s: string, c: char, i: nat)
    requires i < |s| && s[i] != c
    ensures exists p :: p in Split(s, c) && s[i] in p
    decreases |s|
  {
    var at := Index(s, c);
    if at == -1 {
      assert s in Split(s, c);
    } else if i < at {
      assert s[..at] in Split(s, c) && s[..at][i] == s[i];
    } else {
      assert s[at + 1..][i - at - 1] == s[i];
      PiecesCover(s[at + 1..], c, i - at - 1);
      var p :| p in Split(s[at + 1..], c) && s[i] in p;
      assert p in Split(s, c);
    }
  }

  lemma AcceptableHasNoSpace(name: string, i: nat)
    requires Acceptable(name) && i < |TrimSuffix(name, ".")|
    ensures !IsSpace(TrimSuffix(name, ".")[i])
  {
    LowerKeepsSuffix(name);
    var n := Normalized(name);
    if n[i] != '.' {
      PiecesCover(n, '.', i);
      var p :| p in Labels(name) && n[i] in p;
      var j :| 0 <= j < |Labels(name)| && Labels(name)[j] == p;
      assert GoodLabel(Labels(name)[j]);
    }
  }

  /** An accepted name has a last label, and both extractors find it, up to letter case. */
  lemma AcceptedNamesRouteAlike(name: string)
    requires Acceptable(name)
    ensures ResolverTLD(name) == WhoisTLD(name) != ""
    ensures ToLower(ResolverTLD(name)) == Labels(name)[|Labels(name)| - 1]
    ensures GoodLabel(ToLower(ResolverTLD(name)))
  {
    var d := TrimSuffix(name, ".");
    forall i | 0 <= i < |d| ensures !IsSpace(d[i]) {
      AcceptableHasNoSpace(name, i);
    }
    NoSpaceNoTrim(d);
    LowerKeepsSuffix(name);
    LowerKeepsLastPart(d);
    LastPartIsLastLabel(Normalized(name));
    assert GoodLabel(Labels(name)[|Labels(name)| - 1]);
  }

  lemma LastPartBehindDot(head: string, tail: string)
    requires head != "" && head[|head| - 1] == '.'
    requires forall i :: 0 <= i < |tail| ==> tail[i] != '.'
    ensures LastPart(head + tail) == tail
  {
    LastIndexIs(head + tail, '.', |head| - 1);
  }

  lemma SpaceEndsInHead(head: string, tail: string, i: nat)
    requires i < |head| && !IsSpace(head[|head| - 1])
    ensures SpaceEnd(head + tail, i) == SpaceEnd(head, i) < |head|
    decreases |head| - i
  {
    if IsSpace(head[i]) {
      SpaceEndsInHead(head, tail, i + 1);
    }
  }

  lemma SpaceStartsInTail(head: string, tail: string, n: nat)
    requires n <= |tail| && head != "" && !IsSpace(head[|head| - 1])
    ensures SpaceStart(head + tail, |head| + n) == |head| + SpaceStart(tail, n)
  {
    if n > 0 && IsSpace(tail[n - 1]) {
      SpaceStartsInTail(head, tail, n - 1);
    }
  }

  /** Trimming `head + tail` with a dot at the end of `head` trims the two apart. */
  lemma TrimParts(head: string, tail: string)
    requires head != "" && head[|head| - 1] == '.'
    ensures TrimSpace(head + tail) == TrimLeft(head) + TrimRight(tail)
  {
    SpaceEndsInHead(head, tail, 0);
    var start := head[SpaceEnd(head, 0)..];
    assert TrimLeft(head + tail) == start + tail;
    SpaceStartsInTail(start, tail, |tail|);
    assert (start + tail)[..|start| + SpaceStart(tail, |tail|)] == start + TrimRight(tail);
  }

  /** Trimming a text that has a dot trims the part behind the last one on its right only. */
  lemma TrimAroundDot(d: string)
    requires LastIndex(d, '.') != -1
    ensures LastPart(TrimSpace(d)) == TrimRight(LastPart(d))
  {
    var k := LastIndex(d, '.');
    var head, tail := d[..k + 1], d[k + 1..];
    assert d == head + tail;
    TrimParts(head, tail);
    assert TrimLeft(head)[|TrimLeft(head)| - 1] == '.';
    LastPartBehindDot(TrimLeft(head), TrimRight(tail));
  }

  /** On any text at all, the two extractors differ exactly by the space that the WHOIS side trims. */
  lemma ExtractorsAgreeExactlyWhen(domain: string)
    ensures var d := TrimSuffix(domain, ".");
      ResolverTLD(domain) == WhoisTLD(domain) <==>
        if LastIndex(d, '.') != -1 then TrimRight(LastPart(d)) == LastPart(d) else TrimSpace(d) == d
  {
    var d := TrimSuffix(domain, ".");
    if LastIndex(d, '.') != -1 {
      TrimAroundDot(d);
    } else {
      LastIndexIs(TrimSpace(d), '.', -1);
    }
  }
}
