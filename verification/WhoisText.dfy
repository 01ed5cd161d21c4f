/** Reading a WHOIS response chunk by chunk under a size limit. */
module WhoisReader {
  import opened CacheTypes

  /** How the connection ends once its chunks are used up. */
  datatype Ending = EndOfStream | Broken

  datatype Response = Complete(text: Bytes) | TooLarge | ReadError

  function Stream(chunks: seq<Bytes>): Bytes {
    if chunks == [] then [] else Stream(chunks[..|chunks| - 1]) + chunks[|chunks| - 1]
  }

  lemma {:induction false} StreamGrows(chunks: seq<Bytes>, n: nat)
    requires n <= |chunks|
    ensures Stream(chunks[..n]) <= Stream(chunks)
    decreases |chunks|
  {
    if n < |chunks| {
      assert chunks[..|chunks| - 1][..n] == chunks[..n];
      StreamGrows(chunks[..|chunks| - 1], n);
    } else {
      assert chunks[..n] == chunks;
    }
  }

  /**
   The result depends on the stream alone, never on how it is cut into chunks, and `peak`, the most
   bytes ever held, stays within the limit. A negative limit lets the limited reader report the end at once.
   */
  method ReadResponse(chunks: seq<Bytes>, ending: Ending, maxSize: int) returns (r: Response, peak: nat)
    ensures maxSize < 0 ==> r == Complete([])
    ensures maxSize >= 0 ==> var stream := Stream(chunks);
      && (r.TooLarge? <==> |stream| > maxSize)
      && (r.ReadError? <==> |stream| <= maxSize && ending.Broken?)
      && (r.Complete? ==> r.text == stream)
    ensures peak <= if maxSize < 0 then 0 else maxSize
  {
    var builder: Bytes := [];
    var totalRead := 0;
    // the limited reader hands out at most `maxSize + 1` bytes, and then reports the end
    var remaining := maxSize + 1;
    peak := 0;
    var i := 0;
    while i < |chunks| && remaining > 0
      invariant 0 <= i <= |chunks|
      invariant maxSize < 0 ==> i == 0 && remaining <= 0
      invariant maxSize >= 0 ==> remaining == maxSize + 1 - totalRead && totalRead <= maxSize
      invariant builder == Stream(chunks[..i]) && totalRead == |builder| == peak
    {
      StreamGrows(chunks, i + 1);
      assert chunks[..i + 1][..i] == chunks[..i];
      var n := if |chunks[i]| < remaining then |chunks[i]| else remaining;
      totalRead := totalRead + n;
      if totalRead > maxSize {
        return TooLarge, peak;
      }
      builder := builder + chunks[i][..n];
      remaining, peak := remaining - n, |builder|;
      i := i + 1;
    }
    if remaining <= 0 {
      return Complete(builder), peak;
    }
    assert chunks[..i] == chunks;
    r := if ending.Broken? then ReadError else Complete(builder);
  }
}

/** Extracting the values of a field from a WHOIS response. */
module FieldExtractor {
  import opened Text

  predicate Skipped(trimmed: string) {
    trimmed == "" || HasPrefix(trimmed, "%") || HasPrefix(trimmed, "#")
  }

  predicate Mentions(trimmed: string, pattern: string) {
    Contains(ToLower(trimmed), ToLower(pattern) + ":")
  }

  /** The text behind the first colon. */
  function ValueOf(trimmed: string): string {
    var i := Index(trimmed, ':');
    if i == -1 then "" else TrimSpace(trimmed[i + 1..])
  }

  /** What one pattern finds in one line: a value, or nothing as the empty text. */
  function FindValue(line: string, pattern: string): string {
    var trimmed := TrimSpace(line);
    if Skipped(trimmed) || !Mentions(trimmed, pattern) then "" else ValueOf(trimmed)
  }

  type Finder = (string, string) -> string

  /** The values that the first `n` patterns find in one line, one for each pattern that matches. */
  function LineMatches(line: string, patterns: seq<string>, n: nat, find: Finder): seq<string>
    requires n <= |patterns|
  {
    if n == 0 then []
    else
      var earlier, value := LineMatches(line, patterns, n - 1, find), find(line, patterns[n - 1]);
      if value != "" then earlier + [value] else earlier
  }

  /** All matches in the first `n` lines, line by line and pattern by pattern. */
  function MatchesIn(lines: seq<string>, n: nat, patterns: seq<string>, find: Finder): seq<string>
    requires n <= |lines|
  {
    if n == 0 then []
    else MatchesIn(lines, n - 1, patterns, find) + LineMatches(lines[n - 1], patterns, |patterns|, find)
  }

  function Matches(response: string, patterns: seq<string>): seq<string> {
    var lines := Split(response, '\n');
    MatchesIn(lines, |lines|, patterns, FindValue)
  }

  ghost predicate Distinct(s: seq<string>) {
    forall i, j :: 0 <= i < j < |s| ==> s[i] != s[j]
  }

  /** Each value once, where it first occurs. */
  function FirstOccurrences(s: seq<string>): seq<string> {
    if s == [] then []
    else
      var r, x := FirstOccurrences(s[..|s| - 1]), s[|s| - 1];
      if x in r then r else r + [x]
  }

  lemma {:induction false} FirstOccurrencesComplete(s: seq<string>, x: string)
    ensures x in FirstOccurrences(s) <==> x in s
  {
    if s != [] {
      FirstOccurrencesComplete(s[..|s| - 1], x);
      assert s == s[..|s| - 1] + [s[|s| - 1]];
    }
  }

  lemma {:induction false} FirstOccurrencesDistinct(s: seq<string>)
    ensures Distinct(FirstOccurrences(s))
    ensures s != [] ==> FirstOccurrences(s) != [] && FirstOccurrences(s)[0] == s[0]
  {
    if s != [] {
      FirstOccurrencesDistinct(s[..|s| - 1]);
    }
  }

  lemma {:induction false} MatchesGrow(lines: seq<string>, m: nat, n: nat, patterns: seq<string>, find: Finder)
    requires m <= n <= |lines|
    ensures MatchesIn(lines, m, patterns, find) <= MatchesIn(lines, n, patterns, find)
    decreases n
  {
    if m < n {
      MatchesGrow(lines, m, n - 1, patterns, find);
    }
  }

  lemma {:induction false} LineMatchesGrow(line: string, patterns: seq<string>, m: nat, n: nat, find: Finder)
    requires m <= n <= |patterns|
    ensures LineMatches(line, patterns, m, find) <= LineMatches(line, patterns, n, find)
    decreases n
  {
    if m < n {
      LineMatchesGrow(line, patterns, m, n - 1, find);
    }
  }

  /** The loops of `Extract`, for any way to find a value. */
  method FirstMatch(lines: seq<string>, patterns: seq<string>, find: Finder) returns (r: string)
    ensures var ms := MatchesIn(lines, |lines|, patterns, find); r == if ms == [] then "" else ms[0]
  {
    for i := 0 to |lines|
      invariant MatchesIn(lines, i, patterns, find) == []
    {
      MatchesGrow(lines, i + 1, |lines|, patterns, find);
      for j := 0 to |patterns|
        invariant LineMatches(lines[i], patterns, j, find) == []
      {
        LineMatchesGrow(lines[i], patterns, j + 1, |patterns|, find);
        var value := find(lines[i], patterns[j]);
        if value != "" {
          return value;
        }
      }
    }
    r := "";
  }

  /** The first match of the response, or the empty text. */
  method Extract(response: string, patterns: seq<string>) returns (r: string)
    ensures var ms := Matches(response, patterns); r == if ms == [] then "" else ms[0]
  {
    r := FirstMatch(Split(response, '\n'), patterns, FindValue);
  }

  /** How one more value found changes what is kept. */
  lemma {:induction false} KeepOne(before: seq<string>, earlier: seq<string>, x: string)
    ensures var kept := FirstOccurrences(before + earlier);
      FirstOccurrences(before + (earlier + [x])) == if x in kept then kept else kept + [x]
  {
    var found := before + earlier;
    assert before + (earlier + [x]) == found + [x];
    assert (found + [x])[..|found|] == found;
  }

  /** The values kept so far and the set of values seen say the same. */
  predicate Recorded(values: seq<string>, seen: set<string>) {
    (forall x :: x in values ==> x in seen) && forall x :: x in seen ==> x in values
  }

  /** One more value found: it is kept unless it was seen. */
  lemma FindOneMore(before: seq<string>, earlier: seq<string>, x: string, values: seq<string>, seen: set<string>)
    requires values == FirstOccurrences(before + earlier) && Recorded(values, seen)
    ensures var kept := if x in seen then values else values + [x];
      FirstOccurrences(before + (earlier + [x])) == kept && Recorded(kept, seen + {x})
    ensures x in seen ==> seen + {x} == seen
  {
    hide FirstOccurrences;
    KeepOne(before, earlier, x);
  }

  /** The loops of `ExtractAll`, for any way to find a value. */
  method AllMatches(lines: seq<string>, patterns: seq<string>, find: Finder) returns (values: seq<string>)
    ensures values == FirstOccurrences(MatchesIn(lines, |lines|, patterns, find))
  {
    values := [];
    var seen: set<string> := {};
    for i := 0 to |lines|
      invariant values == FirstOccurrences(MatchesIn(lines, i, patterns, find))
      invariant Recorded(values, seen)
    {
      ghost var before := MatchesIn(lines, i, patterns, find);
      assert before + [] == before;
      for j := 0 to |patterns|
        invariant values == FirstOccurrences(before + LineMatches(lines[i], patterns, j, find))
        invariant Recorded(values, seen)
      {
        var value := find(lines[i], patterns[j]);
        if value != "" {
          FindOneMore(before, LineMatches(lines[i], patterns, j, find), value, values, seen);
          if value !in seen {
            values, seen := values + [value], seen + {value};
          }
        }
      }
    }
  }

  /** Every match once, in the order of first occurrence. */
  method ExtractAll(response: string, patterns: seq<string>) returns (values: seq<string>)
    ensures values == FirstOccurrences(Matches(response, patterns))
  {
    values := AllMatches(Split(response, '\n'), patterns, FindValue);
  }

  /** `Extract` gives the head of what `ExtractAll` gives, or nothing; and `ExtractAll` repeats no value. */
  lemma ExtractIsHeadOfAll(response: string, patterns: seq<string>)
    ensures var ms := Matches(response, patterns);
      var all := FirstOccurrences(ms);
      && Distinct(all) && (forall x :: x in all <==> x in ms)
      && (if ms == [] then "" else ms[0]) == (if all == [] then "" else all[0])
  {
    var ms := Matches(response, patterns);
    FirstOccurrencesDistinct(ms);
    forall x ensures x in FirstOccurrences(ms) <==> x in ms {
      FirstOccurrencesComplete(ms, x);
    }
  }

  // ------------------------------------------------- which lines have which values

  /** A line with a field, as a response writes it: key, colon and value, with space around them. */
  datatype Field = Field(lead: string, key: string, gap: string, value: string, tail: string) {
    predicate Writes(line: string) {
      && line == lead + Trimmed() + tail && AllSpace(lead) && AllSpace(gap) && AllSpace(tail) && Tight(value)
      && ':' !in key && (key != "" ==> !IsSpace(key[0]) && key[0] != '%' && key[0] != '#')
    }

    function Trimmed(): string {
      (key + ":") + (gap + value)
    }
  }

  lemma CutAt(key: string, rest: string)
    requires ':' !in key
    ensures Index((key + ":") + rest, ':') == |key| && ((key + ":") + rest)[|key| + 1..] == rest
  {
    var t := (key + ":") + rest;
    assert t[|key|] == ':' && forall j :: 0 <= j < |key| ==> t[j] == key[j];
  }

  lemma TrimmedIsTight(f: Field)
    requires f.Writes(f.lead + f.Trimmed() + f.tail)
    ensures Tight(f.Trimmed()) && !Skipped(f.Trimmed())
  {
    hide AllSpace;
    var t := f.Trimmed();
    assert t[0] == (f.key + ":")[0] && t[|t| - 1] == f.value[|f.value| - 1];
  }

  lemma ValueIsTrimmed(gap: string, value: string)
    requires AllSpace(gap) && Tight(value)
    ensures TrimSpace(gap + value) == value
  {
    TrimOf(gap, value, "");
    assert gap + value + "" == gap + value;
  }

  lemma WrittenField(line: string, f: Field)
    requires f.Writes(line)
    ensures TrimSpace(line) == f.Trimmed() && !Skipped(f.Trimmed()) && ValueOf(f.Trimmed()) == f.value
  {
    hide TrimSpace, AllSpace, Skipped, Tight;
    TrimmedIsTight(f);
    TrimOf(f.lead, f.Trimmed(), f.tail);
    CutAt(f.key, f.gap + f.value);
    ValueIsTrimmed(f.gap, f.value);
  }

  lemma SplitAt(t: string, i: nat)
    requires i < |t| && t[i] == ':'
    ensures t == (t[..i] + ":") + t[i + 1..]
    ensures t[i + 1..] != "" ==> t[i + 1..][|t| - i - 2] == t[|t| - 1]
  {
  }

  lemma ValueIsCut(t: string) returns (key: string, gap: string)
    requires Tight(t) && ValueOf(t) != ""
    ensures t == (key + ":") + (gap + ValueOf(t)) && ':' !in key && AllSpace(gap) && Tight(ValueOf(t))
  {
    var i := Index(t, ':');
    key := t[..i];
    assert ':' !in key;
    var rest := t[i + 1..];
    assert rest != "" && ValueOf(t) == TrimSpace(rest) && !IsSpace(t[|t| - 1]);
    hide *;
    SplitAt(t, i);
    gap := TrimsInFront(rest);
  }

  lemma KeyIsNoComment(t: string, key: string, rest: string)
    requires Tight(t) && !Skipped(t) && t == (key + ":") + rest && key != ""
    ensures !IsSpace(key[0]) && key[0] != '%' && key[0] != '#'
  {
    assert t[0] == key[0] && t[..1] == [t[0]];
  }

  lemma FieldOfLine(line: string) returns (f: Field)
    requires !Skipped(TrimSpace(line)) && ValueOf(TrimSpace(line)) != ""
    ensures f.Writes(line) && f.Trimmed() == TrimSpace(line) && f.value == ValueOf(TrimSpace(line))
  {
    var t := TrimSpace(line);
    assert t != "";
    hide TrimSpace, ValueOf, AllSpace, Tight, Skipped, IsSpace;
    var lead, tail := TrimSplits(line);
    var key, gap := ValueIsCut(t);
    if key != "" {
      KeyIsNoComment(t, key, gap + ValueOf(t));
    }
    f := Field(lead, key, gap, ValueOf(t), tail);
  }

  /** A pattern finds a value exactly in a line with that value whose text has the pattern and a colon. */
  lemma FindsExactlyWhen(line: string, pattern: string, value: string)
    requires value != ""
    ensures FindValue(line, pattern) == value <==>
      exists f: Field :: f.Writes(line) && f.value == value && Mentions(f.Trimmed(), pattern)
  {
    hide TrimSpace, Skipped, Mentions, ValueOf;
    forall f: Field | f.Writes(line) ensures TrimSpace(line) == f.Trimmed() && !Skipped(f.Trimmed())
      ensures ValueOf(f.Trimmed()) == f.value
    {
      WrittenField(line, f);
    }
    if FindValue(line, pattern) == value {
      var f := FieldOfLine(line);
      assert f.Writes(line);
    }
  }

  /** One of the patterns is the end of the field's key, in any letter case. */
  predicate Names(patterns: seq<string>, f: Field) {
    exists j :: 0 <= j < |patterns| && HasSuffix(ToLower(f.key), ToLower(patterns[j]))
  }

  lemma OnlyColon(f: Field)
    requires ':' !in f.key && ':' !in f.value && AllSpace(f.gap)
    ensures var lower := ToLower(f.Trimmed());
      lower[..|f.key|] == ToLower(f.key) && lower[|f.key|] == ':' &&
      forall i :: 0 <= i < |lower| && i != |f.key| ==> lower[i] != ':'
  {
    hide ToLower;
    var t := f.Trimmed();
    forall i | 0 <= i < |t| && i != |f.key| ensures t[i] != ':' {
      assert t[i] == if i < |f.key| then f.key[i] else (f.gap + f.value)[i - |f.key| - 1];
    }
    assert t[|f.key|] == ':' && t[..|f.key|] == f.key;
  }

  lemma SuffixOccurs(lower: string, k: string, p: string)
    requires |k| < |lower| && lower[..|k|] == k && lower[|k|] == ':' && HasSuffix(k, p)
    ensures Contains(lower, p + ":")
  {
    var i := |k| - |p|;
    assert lower[i..|k|] == k[i..] == p;
    assert lower[i..|k| + 1] == lower[i..|k|] + [':'];
    assert OccursAt(lower, p + ":", i);
  }

  lemma OccurrenceIsSuffix(lower: string, k: string, p: string, i: nat)
    requires |k| < |lower| && lower[..|k|] == k && OccursAt(lower, p + ":", i)
    requires forall j :: 0 <= j < |lower| && j != |k| ==> lower[j] != ':'
    ensures HasSuffix(k, p)
  {
    var found := lower[i..i + |p + ":"|];
    assert found[|p|] == ':' && found[|p|] == lower[i + |p|];
    assert i + |p| == |k|;
    assert found[..|p|] == p && found[..|p|] == lower[i..|k|];
    assert k[i..] == lower[i..|k|];
  }

  /** With its only colon behind the key, a field is mentioned by the patterns that end its key. */
  lemma MentionsKeyEnd(f: Field, pattern: string)
    requires ':' !in f.key && ':' !in f.value && AllSpace(f.gap)
    ensures Mentions(f.Trimmed(), pattern) <==> HasSuffix(ToLower(f.key), ToLower(pattern))
  {
    OnlyColon(f);
    hide ToLower, AllSpace, HasSuffix, OccursAt;
    var lower, p, k := ToLower(f.Trimmed()), ToLower(pattern), ToLower(f.key);
    if HasSuffix(k, p) {
      SuffixOccurs(lower, k, p);
    }
    if i :| 0 <= i <= |lower| && OccursAt(lower, p + ":", i) {
      OccurrenceIsSuffix(lower, k, p, i);
    }
  }

  lemma {:induction false} NothingFound(lines: seq<string>, n: nat, patterns: seq<string>, find: Finder)
    requires n <= |lines| && forall i, j :: 0 <= i < n && 0 <= j < |patterns| ==> find(lines[i], patterns[j]) == ""
    ensures MatchesIn(lines, n, patterns, find) == []
  {
    if n > 0 {
      NothingFound(lines, n - 1, patterns, find);
      LineGives(lines[n - 1], patterns, |patterns|, find, "-");
    }
  }

  lemma {:induction false} LineGives(line: string, patterns: seq<string>, n: nat, find: Finder, value: string)
    requires n <= |patterns| && value != "" && forall j :: 0 <= j < n ==> find(line, patterns[j]) in ["", value]
    ensures var found := LineMatches(line, patterns, n, find);
      && (found == [] <==> forall j :: 0 <= j < n ==> find(line, patterns[j]) == "")
      && (found != [] ==> found[0] == value)
  {
    if n > 0 {
      LineGives(line, patterns, n - 1, find, value);
    }
  }

  /**
   From a response of fields, the value extracted is that of the first field whose key ends with one of
   the patterns, field `k`; nothing is found if there is none.
   */
  lemma ExtractsFirstNamed(response: string, fields: seq<Field>, patterns: seq<string>, k: nat)
    requires var lines := Split(response, '\n');
      |lines| == |fields| && forall i :: 0 <= i < |fields| ==> fields[i].Writes(lines[i]) && ':' !in fields[i].value
    requires k <= |fields| && (k < |fields| ==> Names(patterns, fields[k]))
    requires forall i :: 0 <= i < k ==> !Names(patterns, fields[i])
    ensures var ms := Matches(response, patterns);
      if k == |fields| then ms == [] else ms != [] && ms[0] == fields[k].value
  {
    hide ToLower, HasSuffix, Mentions, TrimSpace, Skipped, ValueOf, MatchesIn;
    var lines := Split(response, '\n');
    forall i, j | 0 <= i < |fields| && 0 <= j < |patterns|
      ensures FindValue(lines[i], patterns[j]) ==
        if HasSuffix(ToLower(fields[i].key), ToLower(patterns[j])) then fields[i].value else ""
    {
      WrittenField(lines[i], fields[i]);
      MentionsKeyEnd(fields[i], patterns[j]);
    }
    NothingFound(lines, k, patterns, FindValue);
    if k < |fields| {
      LineGives(lines[k], patterns, |patterns|, FindValue, fields[k].value);
      MatchesAt(lines, k, patterns, FindValue);
      MatchesGrow(lines, k + 1, |lines|, patterns, FindValue);
    }
  }

  lemma MatchesAt(lines: seq<string>, k: nat, patterns: seq<string>, find: Finder)
    requires k < |lines|
    ensures MatchesIn(lines, k + 1, patterns, find) ==
      MatchesIn(lines, k, patterns, find) + LineMatches(lines[k], patterns, |patterns|, find)
  {
  }
}
