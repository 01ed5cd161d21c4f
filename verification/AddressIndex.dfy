/**
 The prefix index for addresses: a binary trie that meets the contract of the prefix ranger, and the
 longest-prefix selection on top of it. Addresses are bit strings of one width, 32 or 128.
 */
module AddressIndex {
  import opened CacheTypes
  import B = AsnBootstrap

  type Bits = seq<bool>
  type Urls = seq<string>

  /** An address with a prefix length; the bits behind the length do not matter. */
  datatype Prefix = Prefix(addr: Bits, len: nat) {
    predicate Valid(width: nat) {
      |addr| == width && len <= width
    }

    function Network(): Bits
      requires len <= |addr|
    {
      addr[..len]
    }

    predicate Covers(ip: Bits)
      requires len <= |addr|
    {
      len <= |ip| && ip[..len] == Network()
    }
  }

  /** What the address parser makes of a key; `inserted` is false when the ranger refuses the prefix. */
  datatype ParsedKey = Malformed | OtherFamily | Parsed(prefix: Prefix, inserted: bool)

  type KeyParser = string -> ParsedKey

  /** The parser gives only prefixes of this width. */
  ghost predicate ForWidth(parseKey: KeyParser, width: nat) {
    forall key :: parseKey(key).Parsed? ==> parseKey(key).prefix.Valid(width)
  }

  datatype Loaded = Loaded(prefix: Prefix, urls: Urls, inserted: bool)

  // ---------------------------------------------------------------------- trie

  datatype Trie = Leaf | Node(entry: Option<Urls>, zero: Trie, one: Trie)

  function Insert(t: Trie, net: Bits, urls: Urls): Trie
    decreases |net|
  {
    var (entry, zero, one) := match t case Leaf => (None, Leaf, Leaf) case Node(e, z, o) => (e, z, o);
    if net == [] then Node(Some(urls), zero, one)
    else if net[0] then Node(entry, zero, Insert(one, net[1..], urls))
    else Node(entry, Insert(zero, net[1..], urls), one)
  }

  /** What is stored for exactly this network. */
  function Get(t: Trie, net: Bits): Option<Urls>
    decreases |net|
  {
    match t
    case Leaf => None
    case Node(entry, zero, one) =>
      if net == [] then entry else Get(if net[0] then one else zero, net[1..])
  }

  lemma {:induction false} GetAfterInsert(t: Trie, net: Bits, urls: Urls, other: Bits)
    ensures Get(Insert(t, net, urls), other) == if other == net then Some(urls) else Get(t, other)
    decreases |net|
  {
    if net != [] && other != [] {
      var below := match t case Leaf => Leaf case Node(_, z, o) => if net[0] then o else z;
      if net[0] == other[0] {
        GetAfterInsert(below, net[1..], urls, other[1..]);
        assert net == [net[0]] + net[1..] && other == [other[0]] + other[1..];
      }
    }
  }

  /** The entries on the path of `ip`, each with its prefix length (`depth` bits are already consumed). */
  function Containing(t: Trie, ip: Bits, depth: nat): seq<(nat, Urls)>
    decreases |ip|
  {
    match t
    case Leaf => []
    case Node(entry, zero, one) =>
      (match entry case None => [] case Some(u) => [(depth, u)]) +
      if ip == [] then [] else Containing(if ip[0] then one else zero, ip[1..], depth + 1)
  }

  /** The first step on the path of an address. */
  lemma PathStep(t: Trie, ip: Bits, depth: nat, d: nat, urls: Urls)
    ensures (d, urls) in Containing(t, ip, depth) <==>
      && t.Node?
      && (|| (d == depth && t.entry == Some(urls))
          || (ip != [] && (d, urls) in Containing(if ip[0] then t.one else t.zero, ip[1..], depth + 1)))
  {
  }

  /** What is stored for a prefix of an address is stored on its path. */
  lemma GetOnPath(t: Trie, ip: Bits, n: nat)
    requires n <= |ip|
    ensures Get(t, ip[..n]) ==
      if t.Leaf? then None
      else if n == 0 then t.entry
      else Get(if ip[0] then t.one else t.zero, ip[1..][..n - 1])
  {
    if n > 0 {
      assert ip[..n][0] == ip[0] && ip[..n][1..] == ip[1..][..n - 1];
    }
  }

  /** The contract of the ranger: exactly the stored networks that contain the address. */
  lemma {:induction false} ContainingIsExact(t: Trie, ip: Bits, depth: nat, d: nat, urls: Urls)
    ensures (d, urls) in Containing(t, ip, depth) <==>
      depth <= d <= depth + |ip| && Get(t, ip[..d - depth]) == Some(urls)
    decreases |ip|
  {
    hide Containing, Get;
    PathStep(t, ip, depth, d, urls);
    if depth <= d <= depth + |ip| {
      GetOnPath(t, ip, d - depth);
    }
    if t.Node? && ip != [] {
      ContainingIsExact(if ip[0] then t.one else t.zero, ip[1..], depth + 1, d, urls);
    }
  }

  // ------------------------------------------------------------------- loading

  ghost predicate AllValid(list: seq<Loaded>, width: nat) {
    forall i :: 0 <= i < |list| ==> list[i].prefix.Valid(width)
  }

  function KeyPrefixes(keys: seq<string>, urls: Urls, parseKey: KeyParser): seq<Loaded> {
    if keys == [] then []
    else
      KeyPrefixes(keys[..|keys| - 1], urls, parseKey) +
      match parseKey(keys[|keys| - 1]) case Parsed(p, ok) => [Loaded(p, urls, ok)] case _ => []
  }

  /** The prefixes of one service entry; none if it is malformed. */
  function EntryPrefixes(entry: Option<B.ServiceEntry>, parseKey: KeyParser): seq<Loaded> {
    match entry
    case None => []
    case Some(e) => KeyPrefixes(e.keys, e.urls, parseKey)
  }

  /** Every prefix of the right family in the file, in file order; a malformed service entry gives none. */
  function FilePrefixes(services: seq<seq<B.Json>>, parseKey: KeyParser): seq<Loaded> {
    if services == [] then []
    else
      FilePrefixes(services[..|services| - 1], parseKey) +
      EntryPrefixes(B.ServiceOf(services[|services| - 1]), parseKey)
  }

  lemma OneServiceMore(services: seq<seq<B.Json>>, i: nat, parseKey: KeyParser)
    requires i < |services|
    ensures FilePrefixes(services[..i + 1], parseKey) ==
      FilePrefixes(services[..i], parseKey) + EntryPrefixes(B.ServiceOf(services[i]), parseKey)
  {
    assert services[..i + 1][..i] == services[..i];
  }

  /** The URLs last inserted for exactly this network. */
  function LastFor(list: seq<Loaded>, net: Bits): Option<Urls>
    requires forall i :: 0 <= i < |list| ==> list[i].prefix.len <= |list[i].prefix.addr|
  {
    if list == [] then None
    else
      var e := list[|list| - 1];
      if e.inserted && e.prefix.Network() == net then Some(e.urls) else LastFor(list[..|list| - 1], net)
  }

  /** The trie holds, for every network, what was last inserted for it. */
  ghost predicate Holds(t: Trie, list: seq<Loaded>)
    requires forall i :: 0 <= i < |list| ==> list[i].prefix.len <= |list[i].prefix.addr|
  {
    forall net :: Get(t, net) == LastFor(list, net)
  }

  // ------------------------------------------------------------------ selection

  /**
   The reference (section 5 of RFC 9224): one pass over the list, keeping the longest covering prefix,
   the later of equals.
   */
  function LinearBest(list: seq<Loaded>, ip: Bits): Option<(nat, Urls)>
    requires forall i :: 0 <= i < |list| ==> list[i].prefix.len <= |list[i].prefix.addr|
  {
    if list == [] then None
    else
      var best, e := LinearBest(list[..|list| - 1], ip), list[|list| - 1];
      if e.inserted && e.prefix.Covers(ip) && (best.None? || e.prefix.len >= best.value.0) then
        Some((e.prefix.len, e.urls))
      else best
  }

  /** `best` is the longest prefix of `ip` with an entry in `list`, with that entry's URLs. */
  ghost predicate IsLongest(list: seq<Loaded>, ip: Bits, best: Option<(nat, Urls)>)
    requires forall i :: 0 <= i < |list| ==> list[i].prefix.len <= |list[i].prefix.addr|
  {
    match best
    case None => forall d :: 0 <= d <= |ip| ==> LastFor(list, ip[..d]).None?
    case Some((len, urls)) =>
      && len <= |ip|
      && LastFor(list, ip[..len]) == Some(urls)
      && forall d :: len < d <= |ip| ==> LastFor(list, ip[..d]).None?
  }

  lemma LongestIsUnique(list: seq<Loaded>, ip: Bits, a: Option<(nat, Urls)>, b: Option<(nat, Urls)>)
    requires forall i :: 0 <= i < |list| ==> list[i].prefix.len <= |list[i].prefix.addr|
    requires IsLongest(list, ip, a) && IsLongest(list, ip, b)
    ensures a == b
  {
  }

  lemma {:induction false} LinearBestIsLongest(list: seq<Loaded>, ip: Bits)
    requires forall i :: 0 <= i < |list| ==> list[i].prefix.len <= |list[i].prefix.addr|
    ensures IsLongest(list, ip, LinearBest(list, ip))
  {
    if list != [] {
      var before, e := list[..|list| - 1], list[|list| - 1];
      LinearBestIsLongest(before, ip);
      forall d | 0 <= d <= |ip|
        ensures LastFor(list, ip[..d]) ==
          if e.inserted && e.prefix.Covers(ip) && d == e.prefix.len then Some(e.urls) else LastFor(before, ip[..d])
      {
        if e.prefix.Network() == ip[..d] {
          assert |e.prefix.Network()| == d;
        }
      }
    }
  }

  /** Two prefixes of the same length that cover one address are the same network. */
  lemma EqualLengthCoversAgree(p: Prefix, q: Prefix, ip: Bits)
    requires p.len <= |p.addr| && q.len <= |q.addr|
    requires p.Covers(ip) && q.Covers(ip) && p.len == q.len
    ensures p.Network() == q.Network()
  {
  }

  /** Not-found exactly when no inserted prefix covers the address. */
  lemma {:induction false} NoneCoversExactlyWhen(list: seq<Loaded>, ip: Bits)
    requires forall i :: 0 <= i < |list| ==> list[i].prefix.len <= |list[i].prefix.addr|
    ensures LinearBest(list, ip).None? <==>
      forall i :: 0 <= i < |list| && list[i].inserted ==> !list[i].prefix.Covers(ip)
  {
    if list != [] {
      var before := list[..|list| - 1];
      NoneCoversExactlyWhen(before, ip);
      assert forall i :: 0 <= i < |before| ==> before[i] == list[i];
    }
  }

  /** `IPv4Bootstrap` at width 32, `IPv6Bootstrap` at width 128. */
  class IPBootstrap {
    const width: nat
    var ranger: Trie
    var prefixes: seq<Loaded>

    ghost predicate Valid()
      reads this
    {
      AllValid(prefixes, width) && Holds(ranger, prefixes)
    }

    constructor (width: nat)
      ensures this.width == width && Valid() && prefixes == []
    {
      this.width := width;
      ranger, prefixes := Leaf, [];
    }

    /** Rebuilds the list and the ranger from a decoded file. */
    method Load(services: seq<seq<B.Json>>, parseKey: KeyParser)
      requires ForWidth(parseKey, width)
      modifies this
      ensures Valid() && prefixes == FilePrefixes(services, parseKey)
    {
      ranger, prefixes := Leaf, [];
      for i := 0 to |services|
        invariant Valid() && prefixes == FilePrefixes(services[..i], parseKey)
      {
        OneServiceMore(services, i, parseKey);
        var entry := B.ParseServiceEntry(services[i]);
        if entry.Some? {
          LoadKeys(entry.value.keys, entry.value.urls, parseKey);
        }
      }
      assert services[..|services|] == services;
    }

    method LoadKeys(keys: seq<string>, urls: Urls, parseKey: KeyParser)
      requires Valid() && ForWidth(parseKey, width)
      modifies this
      ensures Valid() && prefixes == old(prefixes) + KeyPrefixes(keys, urls, parseKey)
    {
      for j := 0 to |keys|
        invariant Valid() && prefixes == old(prefixes) + KeyPrefixes(keys[..j], urls, parseKey)
      {
        assert keys[..j + 1][..j] == keys[..j];
        match parseKey(keys[j]) {
          case Parsed(prefix, inserted) => AddPrefix(prefix, urls, inserted);
          case _ =>
        }
      }
      assert keys[..|keys|] == keys;
    }

    /** The list keeps a prefix even when the ranger refuses it. */
    method AddPrefix(prefix: Prefix, urls: Urls, inserted: bool)
      requires Valid() && prefix.Valid(width)
      modifies this
      ensures Valid() && prefixes == old(prefixes) + [Loaded(prefix, urls, inserted)]
    {
      ghost var before, trie := prefixes, ranger;
      prefixes := prefixes + [Loaded(prefix, urls, inserted)];
      if inserted {
        ranger := Insert(ranger, prefix.Network(), urls);
      }
      assert prefixes[..|before|] == before;
      forall net ensures Get(ranger, net) == LastFor(prefixes, net) {
        GetAfterInsert(trie, prefix.Network(), urls, net);
      }
    }

    /**
     An address of the other family is refused. Among the networks that contain the address, the one
     with the longest mask.
     */
    method ResolveIP(ip: Bits) returns (r: B.Resolved)
      requires Valid()
      ensures r.InvalidInput? <==> |ip| != width
      ensures r.NotInitialized? <==> |ip| == width && prefixes == []
      ensures |ip| == width && prefixes != [] ==>
        r == match LinearBest(prefixes, ip) case None => B.NoServer case Some((_, urls)) => B.Found(urls)
    {
      if |ip| != width {
        return B.InvalidInput;
      }
      if |prefixes| == 0 {
        return B.NotInitialized;
      }
      var entries := Containing(ranger, ip, 0);
      forall d: nat, urls ensures (d, urls) in entries <==> d <= |ip| && LastFor(prefixes, ip[..d]) == Some(urls) {
        ContainingIsExact(ranger, ip, 0, d, urls);
      }
      var best: Option<(nat, Urls)> := None;
      for i := 0 to |entries|
        invariant best.Some? <==> i > 0
        invariant best.Some? ==> best.value in entries
        invariant forall j :: 0 <= j < i ==> entries[j].0 <= best.value.0
      {
        if best == None || entries[i].0 > best.value.0 {
          best := Some(entries[i]);
        }
      }
      LongestOf(prefixes, ip, entries, best);
      LinearBestIsLongest(prefixes, ip);
      LongestIsUnique(prefixes, ip, best, LinearBest(prefixes, ip));
      r := if best == None then B.NoServer else B.Found(best.value.1);
    }
  }

  lemma LongestOf(list: seq<Loaded>, ip: Bits, entries: seq<(nat, Urls)>, best: Option<(nat, Urls)>)
    requires forall i :: 0 <= i < |list| ==> list[i].prefix.len <= |list[i].prefix.addr|
    requires forall d: nat, urls :: (d, urls) in entries <==> d <= |ip| && LastFor(list, ip[..d]) == Some(urls)
    requires if entries == [] then best.None? else
      best.Some? && best.value in entries && forall j :: 0 <= j < |entries| ==> entries[j].0 <= best.value.0
    ensures IsLongest(list, ip, best)
  {
    forall d: nat | d <= |ip| && LastFor(list, ip[..d]).Some?
      ensures best.Some? && d <= best.value.0
    {
      assert (d, LastFor(list, ip[..d]).value) in entries;
    }
    if best.Some? {
      assert best.value == (best.value.0, best.value.1);
    }
  }

  // ------------------------------------------------- the answer in terms of the file

  type Says = seq<Option<B.ServiceEntry>>

  /** The key is a prefix of the right family, accepted by the ranger, that covers the address. */
  predicate KeyCovers(parseKey: KeyParser, key: string, ip: Bits) {
    var k := parseKey(key);
    k.Parsed? && k.inserted && k.prefix.len <= |k.prefix.addr| && k.prefix.Covers(ip)
  }

  /** Some key of service `i` covers the address with a prefix of this length. */
  ghost predicate ListsCover(says: Says, parseKey: KeyParser, i: int, len: nat, ip: Bits) {
    && 0 <= i < |says| && says[i].Some?
    && exists key :: key in says[i].value.keys && KeyCovers(parseKey, key, ip) && parseKey(key).prefix.len == len
  }

  /** Service `i` lists the longest prefix of all that cover the address, and no later one lists one as long. */
  ghost predicate ListsBest(says: Says, parseKey: KeyParser, i: int, len: nat, ip: Bits) {
    && ListsCover(says, parseKey, i, len, ip)
    && forall j, other: nat :: ListsCover(says, parseKey, j, other, ip) ==> other < len || (other == len && j <= i)
  }

  lemma {:induction false} KeyPrefixesValid(keys: seq<string>, urls: Urls, parseKey: KeyParser, width: nat)
    requires ForWidth(parseKey, width)
    ensures AllValid(KeyPrefixes(keys, urls, parseKey), width)
  {
    if keys != [] {
      KeyPrefixesValid(keys[..|keys| - 1], urls, parseKey, width);
    }
  }

  lemma {:induction false} FilePrefixesValid(services: seq<seq<B.Json>>, parseKey: KeyParser, width: nat)
    requires ForWidth(parseKey, width)
    ensures AllValid(FilePrefixes(services, parseKey), width)
  {
    if services != [] {
      FilePrefixesValid(services[..|services| - 1], parseKey, width);
      match B.ServiceOf(services[|services| - 1])
      case None =>
      case Some(e) => KeyPrefixesValid(e.keys, e.urls, parseKey, width);
    }
  }

  /** The longest covering prefix among some keys. */
  function LongestKey(keys: seq<string>, parseKey: KeyParser, ip: Bits): Option<nat> {
    if keys == [] then None
    else
      var before, last := LongestKey(keys[..|keys| - 1], parseKey, ip), keys[|keys| - 1];
      if KeyCovers(parseKey, last, ip) && (before.None? || parseKey(last).prefix.len >= before.value) then
        Some(parseKey(last).prefix.len)
      else before
  }

  lemma {:induction false} LongestKeyIsLongest(keys: seq<string>, parseKey: KeyParser, ip: Bits)
    ensures forall key :: key in keys && KeyCovers(parseKey, key, ip) ==>
      LongestKey(keys, parseKey, ip).Some? && parseKey(key).prefix.len <= LongestKey(keys, parseKey, ip).value
    ensures LongestKey(keys, parseKey, ip).Some? ==>
      exists key :: key in keys && KeyCovers(parseKey, key, ip) &&
        parseKey(key).prefix.len == LongestKey(keys, parseKey, ip).value
  {
    if keys != [] {
      var before, last := keys[..|keys| - 1], keys[|keys| - 1];
      LongestKeyIsLongest(before, parseKey, ip);
      assert keys == before + [last];
      assert last in keys;
    }
  }

  /** What one service more does to the best prefix so far. */
  function Better(best: Option<(nat, Urls)>, len: Option<nat>, urls: Urls): Option<(nat, Urls)> {
    if len.Some? && (best.None? || len.value >= best.value.0) then Some((len.value, urls)) else best
  }

  lemma {:induction false} BestOfKeys(list: seq<Loaded>, keys: seq<string>, urls: Urls, parseKey: KeyParser, width: nat,
      ip: Bits)
    requires AllValid(list, width) && ForWidth(parseKey, width)
    ensures AllValid(KeyPrefixes(keys, urls, parseKey), width)
    ensures LinearBest(list + KeyPrefixes(keys, urls, parseKey), ip) ==
      Better(LinearBest(list, ip), LongestKey(keys, parseKey, ip), urls)
  {
    KeyPrefixesValid(keys, urls, parseKey, width);
    if keys == [] {
      assert list + [] == list;
    } else {
      var before, last := keys[..|keys| - 1], keys[|keys| - 1];
      BestOfKeys(list, before, urls, parseKey, width, ip);
      var earlier := list + KeyPrefixes(before, urls, parseKey);
      match parseKey(last)
      case Parsed(prefix, inserted) =>
        var all := list + KeyPrefixes(keys, urls, parseKey);
        assert all == earlier + [Loaded(prefix, urls, inserted)];
        assert all[..|all| - 1] == earlier;
      case _ => assert KeyPrefixes(keys, urls, parseKey) == KeyPrefixes(before, urls, parseKey);
    }
  }

  /** What is covered by the services before the last, and by the last. */
  lemma CoversBefore(says: Says, parseKey: KeyParser, ip: Bits)
    requires says != []
    ensures var n := |says| - 1;
      forall j, len: nat :: ListsCover(says, parseKey, j, len, ip) <==>
        if j == n then ListsCover(says, parseKey, n, len, ip) else ListsCover(says[..n], parseKey, j, len, ip)
  {
    var n := |says| - 1;
    assert forall j :: 0 <= j < n ==> says[..n][j] == says[j];
  }

  /** The longest covering prefix that the last service lists. */
  lemma CoversOfLast(says: Says, parseKey: KeyParser, ip: Bits)
    requires says != []
    ensures var n := |says| - 1;
      var longest := if says[n].Some? then LongestKey(says[n].value.keys, parseKey, ip) else None;
      && (longest.Some? ==> ListsCover(says, parseKey, n, longest.value, ip))
      && forall len: nat :: ListsCover(says, parseKey, n, len, ip) ==> longest.Some? && len <= longest.value
  {
    var n := |says| - 1;
    if says[n].Some? {
      LongestKeyIsLongest(says[n].value.keys, parseKey, ip);
    }
  }

  /** The best prefix of the file, found again in what the file says; `i` is -1 if no service covers the address. */
  lemma {:induction false} BestListing(services: seq<seq<B.Json>>, says: Says, parseKey: KeyParser, width: nat,
      ip: Bits) returns (i: int)
    requires B.FileSays(services, says) && ForWidth(parseKey, width)
    ensures AllValid(FilePrefixes(services, parseKey), width)
    ensures match LinearBest(FilePrefixes(services, parseKey), ip)
      case None => i == -1 && forall j, len: nat :: !ListsCover(says, parseKey, j, len, ip)
      case Some((len, urls)) => ListsBest(says, parseKey, i, len, ip) && says[i].value.urls == urls
  {
    FilePrefixesValid(services, parseKey, width);
    i := -1;
    if services != [] {
      var n := |services| - 1;
      B.FileSaysBefore(services, says);
      i := BestListing(services[..n], says[..n], parseKey, width, ip);
      var before := FilePrefixes(services[..n], parseKey);
      CoversBefore(says, parseKey, ip);
      CoversOfLast(says, parseKey, ip);
      if says[n].Some? {
        var keys, urls := says[n].value.keys, says[n].value.urls;
        BestOfKeys(before, keys, urls, parseKey, width, ip);
        var best, longest := LinearBest(before, ip), LongestKey(keys, parseKey, ip);
        if longest.Some? && (best.None? || longest.value >= best.value.0) {
          i := n;
        }
      } else {
        assert before + [] == before;
      }
    }
  }

  /** No key of any service is a prefix of the family. */
  predicate ListsNoPrefix(says: Says, parseKey: KeyParser) {
    forall i :: 0 <= i < |says| ==> SaysNoPrefix(says[i], parseKey)
  }

  predicate SaysNoPrefix(said: Option<B.ServiceEntry>, parseKey: KeyParser) {
    said.Some? ==> forall key :: key in said.value.keys ==> !parseKey(key).Parsed?
  }

  lemma {:induction false} NoKeyPrefixes(keys: seq<string>, urls: Urls, parseKey: KeyParser)
    ensures KeyPrefixes(keys, urls, parseKey) == [] <==> forall key :: key in keys ==> !parseKey(key).Parsed?
  {
    if keys != [] {
      NoKeyPrefixes(keys[..|keys| - 1], urls, parseKey);
      assert keys == keys[..|keys| - 1] + [keys[|keys| - 1]];
    }
  }

  lemma NoEntryPrefixes(said: Option<B.ServiceEntry>, parseKey: KeyParser)
    ensures EntryPrefixes(said, parseKey) == [] <==> SaysNoPrefix(said, parseKey)
  {
    if said.Some? {
      NoKeyPrefixes(said.value.keys, said.value.urls, parseKey);
    }
  }

  lemma ListsNoPrefixMore(says: Says, parseKey: KeyParser)
    requires says != []
    ensures ListsNoPrefix(says, parseKey) <==>
      ListsNoPrefix(says[..|says| - 1], parseKey) && SaysNoPrefix(says[|says| - 1], parseKey)
  {
    assert forall i :: 0 <= i < |says| - 1 ==> says[..|says| - 1][i] == says[i];
  }

  lemma {:induction false} NoFilePrefixes(services: seq<seq<B.Json>>, says: Says, parseKey: KeyParser)
    requires B.FileSays(services, says)
    ensures FilePrefixes(services, parseKey) == [] <==> ListsNoPrefix(says, parseKey)
  {
    if services != [] {
      hide SaysNoPrefix, EntryPrefixes, ListsNoPrefix, B.FileSays, B.ServiceOf;
      var n := |services| - 1;
      B.FileSaysBefore(services, says);
      NoFilePrefixes(services[..n], says[..n], parseKey);
      NoEntryPrefixes(says[n], parseKey);
      ListsNoPrefixMore(says, parseKey);
    }
  }

  /** One service lists the best prefix, and the best prefix has one length. */
  lemma BestIsUnique(says: Says, parseKey: KeyParser, ip: Bits, i: int, len: nat, i': int, len': nat)
    requires ListsBest(says, parseKey, i, len, ip) && ListsBest(says, parseKey, i', len', ip)
    ensures i == i' && len == len'
  {
  }

  /**
   Load, then resolve, for any file: an address of the right family gets the URLs of the service that
   lists the longest prefix covering it, the last such service, exactly when one does.
   */
  method LoadAndResolve(width: nat, services: seq<seq<B.Json>>, parseKey: KeyParser, ip: Bits, ghost says: Says)
    returns (r: B.Resolved)
    requires ForWidth(parseKey, width) && B.FileSays(services, says)
    ensures r.InvalidInput? <==> |ip| != width
    ensures r.NotInitialized? <==> |ip| == width && ListsNoPrefix(says, parseKey)
    ensures |ip| == width ==> forall urls ::
      r == B.Found(urls) <==> exists i, len: nat :: ListsBest(says, parseKey, i, len, ip) && says[i].value.urls == urls
  {
    var index := new IPBootstrap(width);
    index.Load(services, parseKey);
    r := index.ResolveIP(ip);
    NoFilePrefixes(services, says, parseKey);
    ghost var i := BestListing(services, says, parseKey, width, ip);
    ghost var best := LinearBest(index.prefixes, ip);
    if best.Some? {
      forall i', len: nat | ListsBest(says, parseKey, i', len, ip) ensures i' == i && len == best.value.0 {
        BestIsUnique(says, parseKey, ip, i, best.value.0, i', len);
      }
    }
  }
}
