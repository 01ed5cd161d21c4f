/** Decoded bootstrap files: service entries, and the ordered index of AS-number ranges. */
module AsnBootstrap {
  import opened CacheTypes
  import opened AsnText

  /** A JSON value as far as the loader looks at it. */
  datatype Json = Text(text: string) | List(items: seq<Json>) | Other

  datatype ServiceEntry = ServiceEntry(keys: seq<string>, urls: seq<string>)

  datatype AsnEntry = AsnEntry(start: nat, end: nat, urls: seq<string>) {
    predicate Holds(asn: nat) {
      start <= asn <= end
    }
  }

  datatype Resolved = Found(urls: seq<string>) | NoServer | InvalidInput | NotInitialized

  /** The texts of a list, in order; anything else in it is skipped. */
  function Texts(items: seq<Json>): seq<string> {
    if items == [] then []
    else Texts(items[..|items| - 1]) +
         match items[|items| - 1] case Text(t) => [t] case _ => []
  }

  function ServiceOf(service: seq<Json>): Option<ServiceEntry> {
    if |service| != 2 || !service[0].List? || !service[1].List? then None
    else
      var keys, urls := Texts(service[0].items), Texts(service[1].items);
      if keys == [] || urls == [] then None else Some(ServiceEntry(keys, urls))
  }

  /** `texts` are the texts of the list, in order; whatever else stands in it may stand anywhere. */
  predicate Spells(items: seq<Json>, texts: seq<string>) {
    if items == [] then texts == []
    else if items[0].Text? then texts != [] && items[0].text == texts[0] && Spells(items[1..], texts[1..])
    else Spells(items[1..], texts)
  }

  predicate HasText(items: seq<Json>) {
    exists i :: 0 <= i < |items| && items[i].Text?
  }

  /** A service lists its keys first and its URLs second, at least one of each. */
  predicate Describes(service: seq<Json>, keys: seq<string>, urls: seq<string>) {
    && |service| == 2 && service[0].List? && service[1].List?
    && Spells(service[0].items, keys) && Spells(service[1].items, urls) && keys != [] && urls != []
  }

  predicate Malformed(service: seq<Json>) {
    || |service| != 2 || !service[0].List? || !service[1].List?
    || !HasText(service[0].items) || !HasText(service[1].items)
  }

  lemma {:induction false} TextsFromFront(items: seq<Json>)
    requires items != []
    ensures Texts(items) == Texts(items[..1]) + Texts(items[1..])
  {
    var n := |items| - 1;
    if n > 0 {
      assert items[..n][..1] == items[..1] && items[..n][1..] == items[1..][..n - 1];
      TextsFromFront(items[..n]);
    }
  }

  lemma HasTextFromFront(items: seq<Json>)
    requires items != []
    ensures HasText(items) <==> items[0].Text? || HasText(items[1..])
  {
    if i :| 0 < i < |items| && items[i].Text? {
      assert items[1..][i - 1] == items[i];
    }
    if j :| 0 <= j < |items[1..]| && items[1..][j].Text? {
      assert items[j + 1] == items[1..][j];
    }
  }

  lemma {:induction false} SpellsExactly(items: seq<Json>, texts: seq<string>)
    ensures Spells(items, texts) <==> Texts(items) == texts
    ensures HasText(items) <==> Texts(items) != []
  {
    if items != [] {
      TextsFromFront(items);
      assert items[..1][..0] == [];
      SpellsExactly(items[1..], if texts == [] then [] else texts[1..]);
      SpellsExactly(items[1..], texts);
      if items[0].Text? {
        assert Texts(items[..1]) == [items[0].text];
      } else {
        assert Texts(items[..1]) == [];
      }
      HasTextFromFront(items);
    }
  }

  /** What a service says: its keys and URLs, or nothing exactly if it is malformed. */
  lemma ServiceExactlyWhen(service: seq<Json>, keys: seq<string>, urls: seq<string>)
    ensures ServiceOf(service) == Some(ServiceEntry(keys, urls)) <==> Describes(service, keys, urls)
    ensures ServiceOf(service).None? <==> Malformed(service)
  {
    if |service| == 2 && service[0].List? && service[1].List? {
      SpellsExactly(service[0].items, keys);
      SpellsExactly(service[1].items, urls);
    }
  }

  /** What a file says, service by service. */
  ghost predicate FileSays(services: seq<seq<Json>>, says: seq<Option<ServiceEntry>>) {
    && |says| == |services|
    && forall i :: 0 <= i < |services| ==>
         match says[i]
         case None => Malformed(services[i])
         case Some(e) => Describes(services[i], e.keys, e.urls)
  }

  /** Every file says exactly one thing. */
  lemma FileSaysExactly(services: seq<seq<Json>>, says: seq<Option<ServiceEntry>>)
    ensures FileSays(services, says) <==>
      |says| == |services| && forall i :: 0 <= i < |services| ==> says[i] == ServiceOf(services[i])
  {
    forall i | 0 <= i < |services| && i < |says|
      ensures says[i] == ServiceOf(services[i]) <==>
        match says[i]
        case None => Malformed(services[i])
        case Some(e) => Describes(services[i], e.keys, e.urls)
    {
      match says[i]
      case None => ServiceExactlyWhen(services[i], [], []);
      case Some(e) => ServiceExactlyWhen(services[i], e.keys, e.urls);
    }
  }

  method CollectTexts(items: seq<Json>) returns (r: seq<string>)
    ensures r == Texts(items)
  {
    r := [];
    for i := 0 to |items|
      invariant r == Texts(items[..i])
    {
      assert items[..i + 1][..i] == items[..i];
      match items[i] {
        case Text(t) => r := r + [t];
        case _ =>
      }
    }
    assert items[..|items|] == items;
  }

  method ParseServiceEntry(service: seq<Json>) returns (r: Option<ServiceEntry>)
    ensures r == ServiceOf(service)
    ensures r.None? <==> Malformed(service)
    ensures r.Some? ==> Describes(service, r.value.keys, r.value.urls)
  {
    ServiceExactlyWhen(service, [], []);
    if ServiceOf(service).Some? {
      ServiceExactlyWhen(service, ServiceOf(service).value.keys, ServiceOf(service).value.urls);
    }
    if |service| != 2 || !service[0].List? || !service[1].List? {
      return None;
    }
    var keys := CollectTexts(service[0].items);
    var urls := CollectTexts(service[1].items);
    return if keys == [] || urls == [] then None else Some(ServiceEntry(keys, urls));
  }

  /** The ranges that the first `n` keys give, in file order; a malformed key gives none. */
  function KeyEntries(keys: seq<string>, urls: seq<string>): seq<AsnEntry> {
    if keys == [] then []
    else KeyEntries(keys[..|keys| - 1], urls) + RangeEntry(ParseASNRange(keys[|keys| - 1]), urls)
  }

  function RangeEntry(range: Option<(nat, nat)>, urls: seq<string>): seq<AsnEntry> {
    match range
    case None => []
    case Some((a, b)) => [AsnEntry(a, b, urls)]
  }

  lemma OneKeyMore(keys: seq<string>, i: nat, urls: seq<string>)
    requires i < |keys|
    ensures KeyEntries(keys[..i + 1], urls) == KeyEntries(keys[..i], urls) + RangeEntry(ParseASNRange(keys[i]), urls)
  {
    assert keys[..i + 1][..i] == keys[..i];
  }

  /** Every range of the file, in file order; a malformed service entry gives none. */
  function FileEntries(services: seq<seq<Json>>): seq<AsnEntry> {
    if services == [] then []
    else FileEntries(services[..|services| - 1]) +
         match ServiceOf(services[|services| - 1]) case None => [] case Some(e) => KeyEntries(e.keys, e.urls)
  }

  ghost predicate Sorted(rs: seq<AsnEntry>) {
    forall i, j :: 0 <= i < j < |rs| ==> rs[i].start <= rs[j].start
  }

  ghost predicate WellFormed(rs: seq<AsnEntry>) {
    forall i :: 0 <= i < |rs| ==> rs[i].start <= rs[i].end <= MAX_UINT32
  }

  /** Section 5.3 of RFC 9224: no two ranges of a file share an AS number. */
  ghost predicate NoOverlap(rs: seq<AsnEntry>) {
    forall i, j :: 0 <= i < j < |rs| ==> rs[i].end < rs[j].start || rs[j].end < rs[i].start
  }

  /** The reference: the first range of the list, in any order, that holds the number. */
  function LinearScan(rs: seq<AsnEntry>, asn: nat): Resolved {
    if rs == [] then NoServer
    else if rs[0].Holds(asn) then Found(rs[0].urls)
    else LinearScan(rs[1..], asn)
  }

  /** How many ranges start at or before `asn`; in a sorted list they come first. */
  ghost predicate Splits(rs: seq<AsnEntry>, asn: nat, n: nat) {
    && n <= |rs|
    && (forall i :: 0 <= i < n ==> rs[i].start <= asn)
    && (forall i :: n <= i < |rs| ==> rs[i].start > asn)
  }

  /** What the lookup answers when `n` ranges start at or before `asn`: it looks only at the last of them. */
  function Preceding(rs: seq<AsnEntry>, asn: nat, n: nat): Resolved
    requires n <= |rs|
  {
    if n > 0 && asn <= rs[n - 1].end then Found(rs[n - 1].urls) else NoServer
  }

  ghost predicate SomeHolds(rs: seq<AsnEntry>, asn: nat) {
    exists i :: 0 <= i < |rs| && rs[i].Holds(asn)
  }

  lemma {:induction false} ScanFindsHolder(rs: seq<AsnEntry>, asn: nat)
    ensures LinearScan(rs, asn).Found? <==> SomeHolds(rs, asn)
    ensures LinearScan(rs, asn).Found? ==>
      exists i :: 0 <= i < |rs| && rs[i].Holds(asn) && LinearScan(rs, asn) == Found(rs[i].urls)
    ensures LinearScan(rs, asn).Found? || LinearScan(rs, asn).NoServer?
  {
    if rs != [] {
      ScanFindsHolder(rs[1..], asn);
      if rs[0].Holds(asn) {
      } else if SomeHolds(rs, asn) {
        var i :| 0 <= i < |rs| && rs[i].Holds(asn);
        assert rs[1..][i - 1].Holds(asn);
        var j :| 0 <= j < |rs[1..]| && rs[1..][j].Holds(asn) && LinearScan(rs[1..], asn) == Found(rs[1..][j].urls);
        assert rs[j + 1] == rs[1..][j];
      } else {
        forall j | 0 <= j < |rs[1..]| ensures !rs[1..][j].Holds(asn) {
          assert rs[j + 1] == rs[1..][j];
        }
      }
    }
  }

  /** In a file without overlap, a number determines the range that holds it. */
  lemma HolderIsUnique(rs: seq<AsnEntry>, asn: nat, e: AsnEntry, f: AsnEntry)
    requires NoOverlap(rs) && e in rs && f in rs && e.Holds(asn) && f.Holds(asn)
    ensures e == f
  {
    var i :| 0 <= i < |rs| && rs[i] == e;
    var j :| 0 <= j < |rs| && rs[j] == f;
  }

  /**
   For a file whose ranges do not overlap, looking only at the range that starts last before the
   number, in any sorted arrangement of the file, is the same as scanning the file in its own order.
   */
  lemma LookupRefinesScan(loaded: seq<AsnEntry>, rs: seq<AsnEntry>, asn: nat, n: nat)
    requires WellFormed(loaded) && NoOverlap(loaded)
    requires multiset(rs) == multiset(loaded) && Sorted(rs) && Splits(rs, asn, n)
    ensures Preceding(rs, asn, n) == LinearScan(loaded, asn)
  {
    forall e ensures e in rs <==> e in loaded {
      assert e in multiset(rs) <==> e in multiset(loaded);
    }
    ScanFindsHolder(loaded, asn);
    if SomeHolds(loaded, asn) {
      var i :| 0 <= i < |loaded| && loaded[i].Holds(asn) && LinearScan(loaded, asn) == Found(loaded[i].urls);
      var e := loaded[i];
      assert e in rs;
      var q :| 0 <= q < |rs| && rs[q] == e;
      assert q < n;
      var last := rs[n - 1];
      assert last in loaded && e.Holds(last.start);
      var k :| 0 <= k < |loaded| && loaded[k] == last;
      assert last.Holds(last.start);
      HolderIsUnique(loaded, last.start, e, last);
    } else if n > 0 {
      var last := rs[n - 1];
      assert last in loaded;
      var k :| 0 <= k < |loaded| && loaded[k] == last;
      assert !loaded[k].Holds(asn);
    }
  }

  /** Range `i` ends short of the earlier range `j` and leaves a gap behind it that `j` covers. */
  predicate Shadows(rs: seq<AsnEntry>, i: nat, j: nat) {
    j < i < |rs| && rs[j].end > rs[i].end && (i + 1 < |rs| ==> rs[i].end + 1 < rs[i + 1].start)
  }

  ghost predicate NoShadow(rs: seq<AsnEntry>) {
    forall i: nat, j: nat :: !Shadows(rs, i, j)
  }

  /** The lookup answers for `asn` whenever some range holds it. */
  ghost predicate CompleteFor(rs: seq<AsnEntry>, asn: nat) {
    forall n: nat :: Splits(rs, asn, n) && SomeHolds(rs, asn) ==> Preceding(rs, asn, n).Found?
  }

  lemma UnshadowedIsComplete(rs: seq<AsnEntry>, asn: nat, n: nat)
    requires Sorted(rs) && NoShadow(rs) && Splits(rs, asn, n) && SomeHolds(rs, asn)
    ensures Preceding(rs, asn, n).Found?
  {
    var j :| 0 <= j < |rs| && rs[j].Holds(asn);
    var i := n - 1;
    assert i >= 0 && !Shadows(rs, i, j);
  }

  lemma UnshadowedIsCompleteFor(rs: seq<AsnEntry>, asn: nat)
    requires Sorted(rs) && NoShadow(rs)
    ensures CompleteFor(rs, asn)
  {
    forall n: nat | Splits(rs, asn, n) && SomeHolds(rs, asn) ensures Preceding(rs, asn, n).Found? {
      UnshadowedIsComplete(rs, asn, n);
    }
  }

  lemma ShadowedIsIncomplete(rs: seq<AsnEntry>)
    requires Sorted(rs) && WellFormed(rs) && !NoShadow(rs)
    ensures exists asn: nat :: 1 <= asn <= MAX_UINT32 && !CompleteFor(rs, asn)
  {
    var i: nat, j: nat :| Shadows(rs, i, j);
    ShadowedIsMissed(rs, i, j);
  }

  /** The number just behind a range that shadows another is held by that other, and missed. */
  lemma ShadowedIsMissed(rs: seq<AsnEntry>, i: nat, j: nat)
    requires Sorted(rs) && WellFormed(rs)
    requires Shadows(rs, i, j)
    ensures 1 <= rs[i].end + 1 <= MAX_UINT32 && !CompleteFor(rs, rs[i].end + 1)
  {
    var asn := rs[i].end + 1;
    assert rs[j].Holds(asn);
    assert Splits(rs, asn, i + 1);
    assert !Preceding(rs, asn, i + 1).Found?;
  }

  /**
   For any sorted list, overlapping or not, the lookup is complete for every AS number exactly when
   no range shadows a gap that an earlier, longer range covers.
   */
  lemma CompleteExactlyWhen(rs: seq<AsnEntry>)
    requires Sorted(rs) && WellFormed(rs)
    ensures (forall asn: nat :: 1 <= asn <= MAX_UINT32 ==> CompleteFor(rs, asn)) <==> NoShadow(rs)
  {
    if NoShadow(rs) {
      forall asn: nat | 1 <= asn <= MAX_UINT32 ensures CompleteFor(rs, asn) {
        UnshadowedIsCompleteFor(rs, asn);
      }
    } else {
      ShadowedIsIncomplete(rs);
    }
  }

  /** Ends that never decrease are enough. */
  lemma NonDecreasingEndsSuffice(rs: seq<AsnEntry>)
    requires forall i, j :: 0 <= i < j < |rs| ==> rs[i].end <= rs[j].end
    ensures NoShadow(rs)
  {
  }

  lemma {:induction false} FileEntriesWellFormed(services: seq<seq<Json>>)
    ensures WellFormed(FileEntries(services))
  {
    if services != [] {
      FileEntriesWellFormed(services[..|services| - 1]);
      match ServiceOf(services[|services| - 1])
      case None =>
      case Some(e) => KeyEntriesWellFormed(e.keys, e.urls);
    }
  }

  lemma {:induction false} KeyEntriesWellFormed(keys: seq<string>, urls: seq<string>)
    ensures WellFormed(KeyEntries(keys, urls))
  {
    if keys != [] {
      KeyEntriesWellFormed(keys[..|keys| - 1], urls);
      ParsedRangeIsOrdered(keys[|keys| - 1]);
    }
  }

  function InsertAt(r: seq<AsnEntry>, k: nat, e: AsnEntry): seq<AsnEntry>
    requires k <= |r|
  {
    r[..k] + [e] + r[k..]
  }

  lemma InsertAtKeepsEntries(r: seq<AsnEntry>, k: nat, e: AsnEntry)
    requires k <= |r|
    ensures multiset(InsertAt(r, k, e)) == multiset(r) + multiset{e}
  {
    assert r == r[..k] + r[k..];
  }

  lemma InsertAtKeepsOrder(r: seq<AsnEntry>, k: nat, e: AsnEntry)
    requires Sorted(r) && k <= |r|
    requires (forall j :: 0 <= j < k ==> r[j].start <= e.start) && (k < |r| ==> e.start < r[k].start)
    ensures Sorted(InsertAt(r, k, e))
  {
  }

  method InsertByStart(r: seq<AsnEntry>, e: AsnEntry) returns (s: seq<AsnEntry>)
    requires Sorted(r)
    ensures Sorted(s) && multiset(s) == multiset(r) + multiset{e}
  {
    var k := 0;
    while k < |r| && r[k].start <= e.start
      invariant 0 <= k <= |r| && forall j :: 0 <= j < k ==> r[j].start <= e.start
    {
      k := k + 1;
    }
    s := InsertAt(r, k, e);
    InsertAtKeepsEntries(r, k, e);
    InsertAtKeepsOrder(r, k, e);
  }

  /** Sorting by start, of which only the contract matters: equal starts may come in any order. */
  method SortByStart(rs: seq<AsnEntry>) returns (r: seq<AsnEntry>)
    ensures Sorted(r) && multiset(r) == multiset(rs)
  {
    r := [];
    for i := 0 to |rs|
      invariant Sorted(r) && multiset(r) == multiset(rs[..i])
    {
      assert rs[..i + 1] == rs[..i] + [rs[i]];
      r := InsertByStart(r, rs[i]);
    }
    assert rs[..|rs|] == rs;
  }

  method CollectRanges(keys: seq<string>, urls: seq<string>) returns (rs: seq<AsnEntry>)
    ensures rs == KeyEntries(keys, urls)
  {
    rs := [];
    for j := 0 to |keys|
      invariant rs == KeyEntries(keys[..j], urls)
    {
      OneKeyMore(keys, j, urls);
      var range := ParseASNRange(keys[j]);
      if range.Some? {
        rs := rs + [AsnEntry(range.value.0, range.value.1, urls)];
      }
    }
    assert keys[..|keys|] == keys;
  }

  class ASNBootstrap {
    var ranges: seq<AsnEntry>

    constructor ()
      ensures ranges == []
    {
      ranges := [];
    }

    /** Replaces the index by the ranges of a decoded file, sorted by start. */
    method LoadASN(services: seq<seq<Json>>)
      modifies this
      ensures Sorted(ranges) && multiset(ranges) == multiset(FileEntries(services))
    {
      var rs: seq<AsnEntry> := [];
      for i := 0 to |services|
        invariant rs == FileEntries(services[..i])
      {
        assert services[..i + 1][..i] == services[..i];
        var entry := ParseServiceEntry(services[i]);
        if entry.Some? {
          var found := CollectRanges(entry.value.keys, entry.value.urls);
          rs := rs + found;
        }
      }
      assert services[..|services|] == services;
      ranges := SortByStart(rs);
    }

    /** `inspected` counts the ranges that the backward loop looks at: never more than one. */
    method ResolveASN(asn: nat) returns (r: Resolved, inspected: nat)
      requires Sorted(ranges) && asn <= MAX_UINT32
      ensures inspected <= 1
      ensures r.InvalidInput? <==> asn == 0
      ensures r.NotInitialized? <==> asn != 0 && ranges == []
      ensures r.Found? ==> exists i :: 0 <= i < |ranges| && ranges[i].Holds(asn) && r == Found(ranges[i].urls)
      ensures asn != 0 && ranges != [] ==> exists n: nat :: Splits(ranges, asn, n) && r == Preceding(ranges, asn, n)
    {
      inspected := 0;
      if asn == 0 {
        return InvalidInput, 0;
      }
      if |ranges| == 0 {
        return NotInitialized, 0;
      }
      var lo, hi := 0, |ranges|;
      while lo < hi
        invariant 0 <= lo <= hi <= |ranges|
        invariant forall i :: 0 <= i < lo ==> ranges[i].start <= asn
        invariant forall i :: hi <= i < |ranges| ==> ranges[i].start > asn
      {
        var mid := (lo + hi) / 2;
        if ranges[mid].start > asn {
          hi := mid;
        } else {
          lo := mid + 1;
        }
      }
      assert Splits(ranges, asn, lo);
      var i, more := lo - 1, true;
      while more && i >= 0
        invariant -1 <= i < |ranges|
        invariant if more then i == lo - 1 && inspected == 0 else inspected == 1
        invariant !more ==> lo > 0 && ranges[lo - 1].end < asn
        decreases more
      {
        inspected := inspected + 1;
        if ranges[i].start <= asn && asn <= ranges[i].end {
          return Found(ranges[i].urls), inspected;
        }
        // no earlier range is looked at once one ends short of the number
        more := !(ranges[i].end < asn);
        i := i - 1;
      }
      r := NoServer;
    }
  }

  /** Some key of service `i` is a range that holds the number. */
  predicate ListsNumber(says: seq<Option<ServiceEntry>>, i: nat, asn: nat) {
    && i < |says| && says[i].Some?
    && exists key :: key in says[i].value.keys && RangeHolds(ParseASNRange(key), asn)
  }

  predicate RangeHolds(range: Option<(nat, nat)>, asn: nat) {
    range.Some? && range.value.0 <= asn <= range.value.1
  }

  /** No service lists any range at all. */
  predicate ListsNoRange(says: seq<Option<ServiceEntry>>) {
    forall i, key :: 0 <= i < |says| && says[i].Some? && key in says[i].value.keys ==> ParseASNRange(key).None?
  }

  /** A range that is written out holds the numbers between its bounds. */
  lemma PrintedRangeListsNumber(says: seq<Option<ServiceEntry>>, i: nat, a: nat, b: nat, asn: nat)
    requires i < |says| && says[i].Some? && a <= asn <= b <= MAX_UINT32
    requires Print(a) + "-" + Print(b) in says[i].value.keys || (a == b && Print(a) in says[i].value.keys)
    ensures ListsNumber(says, i, asn)
  {
    ParseRangeInvertsPrint(a, b);
  }

  lemma {:induction false} KeyGivesEntry(keys: seq<string>, urls: seq<string>, e: AsnEntry)
    ensures e in KeyEntries(keys, urls) <==>
      e.urls == urls && exists key :: key in keys && ParseASNRange(key) == Some((e.start, e.end))
  {
    if keys != [] {
      var n := |keys| - 1;
      KeyGivesEntry(keys[..n], urls, e);
      assert keys == keys[..n] + [keys[n]];
    }
  }

  /** One service more adds the entries that its keys give. */
  lemma OneServiceMore(services: seq<seq<Json>>, said: Option<ServiceEntry>, e: AsnEntry)
    requires services != [] && ServiceOf(services[|services| - 1]) == said
    ensures e in FileEntries(services) <==> e in FileEntries(services[..|services| - 1]) || GivesEntry(said, e)
  {
    if said.Some? {
      KeyGivesEntry(said.value.keys, said.value.urls, e);
    }
  }

  ghost predicate SomeGives(says: seq<Option<ServiceEntry>>, e: AsnEntry) {
    exists i :: 0 <= i < |says| && GivesEntry(says[i], e)
  }

  lemma SomeGivesMore(says: seq<Option<ServiceEntry>>, e: AsnEntry)
    requires says != []
    ensures SomeGives(says, e) <==> SomeGives(says[..|says| - 1], e) || GivesEntry(says[|says| - 1], e)
  {
    var before := says[..|says| - 1];
    if i :| 0 <= i < |before| && GivesEntry(before[i], e) {
      assert says[i] == before[i];
    }
    if i :| 0 <= i < |before| && GivesEntry(says[i], e) {
      assert says[i] == before[i];
    }
  }

  lemma FileSaysBefore(services: seq<seq<Json>>, says: seq<Option<ServiceEntry>>)
    requires FileSays(services, says) && services != []
    ensures |says| == |services| && FileSays(services[..|services| - 1], says[..|says| - 1])
    ensures ServiceOf(services[|services| - 1]) == says[|says| - 1]
  {
    FileSaysExactly(services, says);
    FileSaysExactly(services[..|services| - 1], says[..|says| - 1]);
  }

  /** The entries of a file come from its services, key by key. */
  lemma {:induction false} EntryStandsInFile(services: seq<seq<Json>>, says: seq<Option<ServiceEntry>>, e: AsnEntry)
    requires FileSays(services, says)
    ensures e in FileEntries(services) <==> SomeGives(says, e)
  {
    if services != [] {
      hide FileSays, FileEntries, GivesEntry, SomeGives, ServiceOf;
      FileSaysBefore(services, says);
      EntryStandsInFile(services[..|services| - 1], says[..|says| - 1], e);
      OneServiceMore(services, says[|says| - 1], e);
      SomeGivesMore(says, e);
    }
  }

  predicate GivesEntry(said: Option<ServiceEntry>, e: AsnEntry) {
    && said.Some? && said.value.urls == e.urls
    && exists key :: key in said.value.keys && ParseASNRange(key) == Some((e.start, e.end))
  }

  lemma ListingGivesEntry(says: seq<Option<ServiceEntry>>, i: nat, asn: nat) returns (e: AsnEntry)
    requires ListsNumber(says, i, asn)
    ensures GivesEntry(says[i], e) && e.Holds(asn) && e.urls == says[i].value.urls
  {
    var key :| key in says[i].value.keys && RangeHolds(ParseASNRange(key), asn);
    e := AsnEntry(ParseASNRange(key).value.0, ParseASNRange(key).value.1, says[i].value.urls);
  }

  lemma EntryGivesListing(says: seq<Option<ServiceEntry>>, i: nat, asn: nat, e: AsnEntry)
    requires i < |says| && GivesEntry(says[i], e) && e.Holds(asn)
    ensures ListsNumber(says, i, asn) && says[i].value.urls == e.urls
  {
  }

  /** In a file without overlap, the scan finds the URLs of any entry that holds the number. */
  lemma ScanFindsEntry(rs: seq<AsnEntry>, asn: nat, e: AsnEntry)
    requires NoOverlap(rs) && e in rs && e.Holds(asn)
    ensures LinearScan(rs, asn) == Found(e.urls)
  {
    var k :| 0 <= k < |rs| && rs[k] == e;
    ScanFindsHolder(rs, asn);
    var m :| 0 <= m < |rs| && rs[m].Holds(asn) && LinearScan(rs, asn) == Found(rs[m].urls);
    HolderIsUnique(rs, asn, e, rs[m]);
  }

  /** In a file without overlap, the scan finds the URLs of the service that lists the number. */
  lemma ScanFindsListing(services: seq<seq<Json>>, says: seq<Option<ServiceEntry>>, asn: nat, urls: seq<string>)
    requires FileSays(services, says) && NoOverlap(FileEntries(services))
    ensures LinearScan(FileEntries(services), asn) == Found(urls) <==>
      exists i: nat :: ListsNumber(says, i, asn) && says[i].value.urls == urls
  {
    hide FileSays, NoOverlap, FileEntries, GivesEntry, ListsNumber;
    var rs := FileEntries(services);
    ScanFindsHolder(rs, asn);
    if LinearScan(rs, asn) == Found(urls) {
      var k :| 0 <= k < |rs| && rs[k].Holds(asn) && LinearScan(rs, asn) == Found(rs[k].urls);
      EntryStandsInFile(services, says, rs[k]);
      var i :| 0 <= i < |says| && GivesEntry(says[i], rs[k]);
      EntryGivesListing(says, i, asn, rs[k]);
    }
    forall i: nat | i < |says| && says[i].Some? && ListsNumber(says, i, asn) && says[i].value.urls == urls
      ensures LinearScan(rs, asn) == Found(urls)
    {
      var e := ListingGivesEntry(says, i, asn);
      EntryStandsInFile(services, says, e);
      ScanFindsEntry(rs, asn, e);
    }
    forall i: nat | ListsNumber(says, i, asn) ensures i < |says| && says[i].Some? {
      ListingIsThere(says, i, asn);
    }
  }

  lemma ListingIsThere(says: seq<Option<ServiceEntry>>, i: nat, asn: nat)
    requires ListsNumber(says, i, asn)
    ensures i < |says| && says[i].Some?
  {
  }

  lemma EmptyExactlyWhenNoRange(services: seq<seq<Json>>, says: seq<Option<ServiceEntry>>)
    requires FileSays(services, says)
    ensures FileEntries(services) == [] <==> ListsNoRange(says)
  {
    if FileEntries(services) != [] {
      var e := FileEntries(services)[0];
      assert e in FileEntries(services);
      EntryStandsInFile(services, says, e);
    }
    if i, key :| 0 <= i < |says| && says[i].Some? && key in says[i].value.keys && ParseASNRange(key).Some? {
      var e := AsnEntry(ParseASNRange(key).value.0, ParseASNRange(key).value.1, says[i].value.urls);
      assert GivesEntry(says[i], e);
      EntryStandsInFile(services, says, e);
    }
  }

  /**
   Loading a file without overlap and resolving a number in it: the answer of a scan of the file. So
   it is the URLs of the service that lists a range with the number, exactly when there is one.
   */
  method LoadAndResolve(services: seq<seq<Json>>, asn: nat, ghost says: seq<Option<ServiceEntry>>)
    returns (r: Resolved)
    requires NoOverlap(FileEntries(services)) && 1 <= asn <= MAX_UINT32 && FileSays(services, says)
    ensures r == if FileEntries(services) == [] then NotInitialized else LinearScan(FileEntries(services), asn)
    ensures forall urls ::
      r == Found(urls) <==> exists i: nat :: ListsNumber(says, i, asn) && says[i].value.urls == urls
    ensures r.NotInitialized? <==> ListsNoRange(says)
  {
    var index := new ASNBootstrap();
    index.LoadASN(services);
    var n;
    r, n := index.ResolveASN(asn);
    FileEntriesWellFormed(services);
    if FileEntries(services) == [] {
      assert |multiset(index.ranges)| == 0;
    } else {
      assert |multiset(FileEntries(services))| > 0;
      ghost var k: nat :| Splits(index.ranges, asn, k) && r == Preceding(index.ranges, asn, k);
      LookupRefinesScan(FileEntries(services), index.ranges, asn, k);
    }
    EmptyExactlyWhenNoRange(services, says);
    forall urls
      ensures r == Found(urls) <==> exists i: nat :: ListsNumber(says, i, asn) && says[i].value.urls == urls
    {
      ScanFindsListing(services, says, asn, urls);
    }
  }
}
