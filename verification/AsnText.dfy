/** AS numbers as text: decimal parsing and printing, single numbers and ranges. */
module AsnText {
  import opened CacheTypes
  import opened Text

  const MAX_UINT32: nat := 0xFFFF_FFFF

  predicate IsDigit(c: char) {
    '0' <= c <= '9'
  }

  predicate AllDigits(s: string) {
    forall i :: 0 <= i < |s| ==> IsDigit(s[i])
  }

  function DigitValue(c: char): nat
    requires IsDigit(c)
  {
    (c - '0') as int
  }

  function Digit(d: nat): char
    requires d < 10
  {
    '0' + d as char
  }

  function Value(s: string): nat
    requires AllDigits(s)
  {
    if s == "" then 0 else 10 * Value(s[..|s| - 1]) + DigitValue(s[|s| - 1])
  }

  /** `strconv.ParseUint(s, 10, 32)`: no sign, no underscore, no empty text, no value over 32 bits. */
  function ParseUint32(s: string): Option<nat> {
    if s == "" || !AllDigits(s) || Value(s) > MAX_UINT32 then None else Some(Value(s))
  }

  function Print(n: nat): string {
    if n < 10 then [Digit(n)] else Print(n / 10) + [Digit(n % 10)]
  }

  function ParseASN(s: string): Option<nat> {
    var r := ParseUint32(TrimPrefix(ToUpper(TrimSpace(s)), "AS"));
    if r == Some(0) then None else r
  }

  /** "1234" or "1234-5678", as inclusive bounds. */
  function ParseASNRange(s: string): Option<(nat, nat)> {
    var parts := Split(s, '-');
    if |parts| == 1 then
      match ParseUint32(parts[0]) case None => None case Some(n) => Some((n, n))
    else if |parts| == 2 then
      match (ParseUint32(parts[0]), ParseUint32(parts[1]))
      case (Some(a), Some(b)) => if a > b then None else Some((a, b))
      case _ => None
    else None
  }

  lemma {:induction false} ParsePrint(n: nat)
    ensures Print(n) != "" && AllDigits(Print(n)) && Value(Print(n)) == n
    ensures n <= MAX_UINT32 ==> ParseUint32(Print(n)) == Some(n)
  {
    if n < 10 {
      assert Print(n)[..0] == "";
    } else {
      ParsePrint(n / 10);
      assert Print(n)[..|Print(n)| - 1] == Print(n / 10);
    }
  }

  lemma DigitsAreTrimmed(s: string)
    requires s != "" && !IsSpace(s[0]) && !IsSpace(s[|s| - 1])
    ensures TrimSpace(s) == s
  {
  }

  lemma UpperKeepsDigits(s: string)
    requires AllDigits(s)
    ensures ToUpper(s) == s
  {
    forall i | 0 <= i < |s| ensures ToUpper(s)[i] == s[i] {
    }
  }

  lemma PrefixIsDropped(digits: string, prefix: string)
    requires AllDigits(digits) && digits != "" && prefix in ["", "AS", "as"]
    ensures TrimPrefix(ToUpper(prefix + digits), "AS") == digits
  {
    UpperKeepsDigits(digits);
    if prefix == "" {
      assert prefix + digits == digits;
      assert IsDigit(digits[0]) && "AS"[0] == 'A';
    } else {
      assert ToUpper(prefix + digits) == "AS" + digits;
    }
  }

  /** Parsing an AS number inverts printing it, with the prefix "AS", "as" or none. */
  lemma ParseASNInvertsPrint(n: nat, prefix: string)
    requires 1 <= n <= MAX_UINT32 && prefix in ["", "AS", "as"]
    ensures ParseASN(prefix + Print(n)) == Some(n)
  {
    ParsePrint(n);
    var digits, s := Print(n), prefix + Print(n);
    assert IsDigit(digits[0]) && s[|s| - 1] == digits[|digits| - 1];
    assert s[0] == if prefix == "" then digits[0] else prefix[0];
    DigitsAreTrimmed(s);
    PrefixIsDropped(digits, prefix);
  }

  lemma IndexIs(s: string, c: char, k: int)
    requires -1 <= k < |s| && (k >= 0 ==> s[k] == c)
    requires forall i :: 0 <= i < (if k == -1 then |s| else k) ==> s[i] != c
    ensures Index(s, c) == k
  {
  }

  lemma SplitNone(a: string, c: char)
    requires forall i :: 0 <= i < |a| ==> a[i] != c
    ensures Split(a, c) == [a]
  {
    IndexIs(a, c, -1);
  }

  lemma SplitOnce(a: string, b: string, c: char)
    requires forall i :: 0 <= i < |a| ==> a[i] != c
    requires forall i :: 0 <= i < |b| ==> b[i] != c
    ensures Split(a, c) == [a] && Split(a + [c] + b, c) == [a, b]
  {
    var s := a + [c] + b;
    SplitNone(a, c);
    SplitNone(b, c);
    IndexIs(s, c, |a|);
    assert s[..|a|] == a && s[|a| + 1..] == b;
  }

  /** Parsing a range inverts printing its bounds; bounds in the wrong order are refused. */
  lemma ParseRangeInvertsPrint(a: nat, b: nat)
    requires a <= MAX_UINT32 && b <= MAX_UINT32
    ensures ParseASNRange(Print(a)) == Some((a, a))
    ensures ParseASNRange(Print(a) + "-" + Print(b)) == if a <= b then Some((a, b)) else None
  {
    ParsePrint(a);
    ParsePrint(b);
    SplitOnce(Print(a), Print(b), '-');
  }

  lemma ParsedRangeIsOrdered(s: string)
    ensures ParseASNRange(s).Some? ==> ParseASNRange(s).value.0 <= ParseASNRange(s).value.1 <= MAX_UINT32
  {
  }

  // ------------------------------------------------- exactly which texts are accepted

  function Zeros(n: nat): string {
    seq(n, i requires 0 <= i < n => '0')
  }

  lemma {:induction false} ZerosCountNothing(z: nat, t: string)
    requires AllDigits(t)
    ensures AllDigits(Zeros(z) + t) && Value(Zeros(z) + t) == Value(t)
    decreases |t|, z
  {
    var s := Zeros(z) + t;
    if t != "" {
      ZerosCountNothing(z, t[..|t| - 1]);
      assert s[..|s| - 1] == Zeros(z) + t[..|t| - 1];
    } else if z > 0 {
      ZerosCountNothing(z - 1, t);
      assert s[..|s| - 1] == Zeros(z - 1) + t;
    }
  }

  lemma PrintLonger(v: nat, d: nat)
    requires v > 0 && d < 10
    ensures Print(10 * v + d) == Print(v) + [Digit(d)]
  {
  }

  lemma OneDigitMore(z: nat, v: nat, d: nat) returns (z': nat)
    requires d < 10
    ensures Zeros(z) + Print(v) + [Digit(d)] == Zeros(z') + Print(10 * v + d)
  {
    z' := z;
    if v > 0 {
      PrintLonger(v, d);
    } else {
      z' := z + 1;
      assert Zeros(z) + Print(v) == Zeros(z');
    }
  }

  /** Digits are zeros and the decimal form of their value. */
  lemma {:induction false} DigitsArePrinted(s: string) returns (z: nat)
    requires s != "" && AllDigits(s)
    ensures s == Zeros(z) + Print(Value(s))
  {
    var n := |s| - 1;
    var d := DigitValue(s[n]);
    assert s == s[..n] + [Digit(d)];
    if n == 0 {
      z := 0;
    } else {
      z := DigitsArePrinted(s[..n]);
      hide Zeros, Print;
      z := OneDigitMore(z, Value(s[..n]), d);
    }
  }

  /** A number is accepted exactly in decimal, zeros in front allowed, and up to 32 bits. */
  lemma ParsesExactlyDecimals(s: string, n: nat)
    ensures ParseUint32(s) == Some(n) <==> n <= MAX_UINT32 && exists z: nat :: s == Zeros(z) + Print(n)
  {
    ParsePrint(n);
    if z: nat :| s == Zeros(z) + Print(n) {
      ZerosCountNothing(z, Print(n));
    }
    if ParseUint32(s) == Some(n) {
      var z := DigitsArePrinted(s);
    }
  }

  /** An AS number written with space around it and the prefix in any letter case, or without it. */
  predicate WritesASN(s: string, lead: string, prefix: string, digits: string, tail: string) {
    s == lead + prefix + digits + tail && AllSpace(lead) && AllSpace(tail) && ToUpper(prefix) in ["", "AS"]
  }

  lemma UpperIsNoDigit(s: string)
    ensures ParseUint32(ToUpper(s)) == ParseUint32(s)
  {
    if AllDigits(s) {
      UpperKeepsDigits(s);
    } else {
      var i :| 0 <= i < |s| && !IsDigit(s[i]);
      UpperCharIsNoDigit(s[i]);
    }
  }

  lemma UpperCharIsNoDigit(c: char)
    requires !IsDigit(c)
    ensures !IsDigit(UpperChar(c))
  {
  }

  lemma PrefixIsSplit(t: string) returns (prefix: string, digits: string)
    ensures t == prefix + digits && ToUpper(prefix) in ["", "AS"]
    ensures TrimPrefix(ToUpper(t), "AS") == ToUpper(digits)
  {
    var n := if HasPrefix(ToUpper(t), "AS") then 2 else 0;
    prefix, digits := t[..n], t[n..];
    assert ToUpper(t)[..n] == ToUpper(prefix) && ToUpper(t)[n..] == ToUpper(digits);
    assert t == prefix + digits;
    if n == 2 {
      assert ToUpper(t)[0] == 'A' && ToUpper(t)[1] == 'S';
      assert ToUpper(prefix) == "AS";
    } else {
      assert ToUpper(prefix) == "" && digits == t;
    }
  }

  lemma AcceptedIsWritten(s: string) returns (lead: string, prefix: string, digits: string, tail: string)
    requires ParseASN(s).Some?
    ensures WritesASN(s, lead, prefix, digits, tail) && ParseUint32(digits) == ParseASN(s)
  {
    hide TrimSpace, TrimPrefix, ToUpper, AllSpace, Tight, ParseUint32, ParseASN, WritesASN;
    lead, tail := TrimSplits(s);
    prefix, digits := PrefixIsSplit(TrimSpace(s));
    UpperIsNoDigit(digits);
    ParseTrimmed(s);
    Written(s, lead, prefix, digits, tail);
  }

  lemma Written(s: string, lead: string, prefix: string, digits: string, tail: string)
    requires s == lead + (prefix + digits) + tail && AllSpace(lead) && AllSpace(tail) && ToUpper(prefix) in ["", "AS"]
    ensures WritesASN(s, lead, prefix, digits, tail)
  {
    hide AllSpace, ToUpper;
    assert s == lead + prefix + digits + tail;
  }

  lemma NumberBehindPrefix(prefix: string, digits: string)
    requires ToUpper(prefix) in ["", "AS"] && digits != "" && AllDigits(digits)
    ensures TrimPrefix(ToUpper(prefix + digits), "AS") == digits
  {
    UpperKeepsDigits(digits);
    var u := ToUpper(prefix + digits);
    assert u == ToUpper(prefix) + digits;
    if prefix == "" {
      assert u[..1][0] == digits[0];
    } else {
      assert u[..2] == "AS" && u[2..] == digits;
    }
  }

  lemma PrefixedIsTight(prefix: string, digits: string)
    requires ToUpper(prefix) in ["", "AS"] && digits != "" && AllDigits(digits)
    ensures Tight(prefix + digits)
  {
    if prefix != "" {
      assert ToUpper(prefix)[0] == 'A';
    }
  }

  lemma ParseTrimmed(s: string)
    ensures var r := ParseUint32(TrimPrefix(ToUpper(TrimSpace(s)), "AS"));
      ParseASN(s) == if r == Some(0) then None else r
  {
    hide ParseUint32, TrimPrefix, ToUpper, TrimSpace;
  }

  lemma WrittenTrims(s: string, lead: string, prefix: string, digits: string, tail: string)
    requires WritesASN(s, lead, prefix, digits, tail) && digits != "" && AllDigits(digits)
    ensures TrimSpace(s) == prefix + digits
  {
    PrefixedIsTight(prefix, digits);
    hide TrimSpace, AllSpace, ToUpper, Tight;
    assert s == lead + (prefix + digits) + tail;
    TrimOf(lead, prefix + digits, tail);
  }

  lemma WrittenASN(s: string, lead: string, prefix: string, digits: string, tail: string)
    requires WritesASN(s, lead, prefix, digits, tail) && ParseUint32(digits).Some?
    ensures ParseASN(s) == if ParseUint32(digits) == Some(0) then None else ParseUint32(digits)
  {
    hide TrimSpace, TrimPrefix, ToUpper, AllSpace;
    WrittenTrims(s, lead, prefix, digits, tail);
    NumberBehindPrefix(prefix, digits);
    ParseTrimmed(s);
  }

  /** Exactly the texts that are accepted as an AS number. */
  lemma ParsesExactlyASNs(s: string, n: nat)
    ensures ParseASN(s) == Some(n) <==>
      n > 0 && exists lead, prefix, digits, tail ::
        WritesASN(s, lead, prefix, digits, tail) && ParseUint32(digits) == Some(n)
  {
    hide ParseUint32, ParseASN, WritesASN;
    if lead, prefix, digits, tail :| WritesASN(s, lead, prefix, digits, tail) && ParseUint32(digits) == Some(n) {
      WrittenASN(s, lead, prefix, digits, tail);
    }
    if ParseASN(s) == Some(n) {
      var lead, prefix, digits, tail := AcceptedIsWritten(s);
      assert WritesASN(s, lead, prefix, digits, tail);
    }
  }

  lemma {:induction false} SplitParts(s: string, c: char)
    ensures |Split(s, c)| == 1 ==> Split(s, c) == [s]
    ensures |Split(s, c)| == 2 ==> s == Split(s, c)[0] + [c] + Split(s, c)[1]
  {
    var i := Index(s, c);
    if i >= 0 {
      var rest := s[i + 1..];
      SplitParts(rest, c);
      assert Split(s, c) == [s[..i]] + Split(rest, c);
      assert s == s[..i] + [c] + rest;
    }
  }

  /** Two numbers with a hyphen between, in order. */
  predicate WritesRange(s: string, x: string, y: string, a: nat, b: nat) {
    s == x + "-" + y && ParseUint32(x) == Some(a) && ParseUint32(y) == Some(b) && a <= b
  }

  /** Exactly the texts that are accepted as a range. */
  lemma ParsesExactlyRanges(s: string, a: nat, b: nat)
    ensures ParseASNRange(s) == Some((a, b)) <==>
      (a == b && ParseUint32(s) == Some(a)) || exists x, y :: WritesRange(s, x, y, a, b)
  {
    hide Split;
    SplitParts(s, '-');
    if ParseUint32(s).Some? {
      SplitNone(s, '-');
    }
    if x, y :| WritesRange(s, x, y, a, b) {
      SplitOnce(x, y, '-');
    }
    if ParseASNRange(s) == Some((a, b)) && |Split(s, '-')| == 2 {
      assert WritesRange(s, Split(s, '-')[0], Split(s, '-')[1], a, b);
    }
  }
}
