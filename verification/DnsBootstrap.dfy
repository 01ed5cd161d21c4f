/** The bootstrap table for domain names: loading it, and resolving a name by its last label. */
module DnsBootstrap {
  import opened CacheTypes
  import opened Text
  import opened DomainNames
  import B = AsnBootstrap

  type Urls = seq<string>

  /** The URLs of the last service entry, in file order, that lists `tld` in any letter case. */
  function LastListing(services: seq<seq<B.Json>>, tld: string): Option<Urls> {
    if services == [] then None
    else
      match B.ServiceOf(services[|services| - 1])
      case Some(e) => if Lists(e.keys, tld) then Some(e.urls) else LastListing(services[..|services| - 1], tld)
      case None => LastListing(services[..|services| - 1], tld)
  }

  predicate Lists(keys: seq<string>, tld: string) {
    keys != [] && (ToLower(keys[|keys| - 1]) == tld || Lists(keys[..|keys| - 1], tld))
  }

  ghost predicate Tabulates(table: map<string, Urls>, services: seq<seq<B.Json>>) {
    forall tld :: (tld in table <==> LastListing(services, tld).Some?)
      && (tld in table ==> LastListing(services, tld) == Some(table[tld]))
  }

  /** What the table answers for a label in lower case. */
  function AnswerFor(table: map<string, Urls>, tld: string): B.Resolved {
    if table == map[] then B.NotInitialized
    else if tld == "" then B.InvalidInput
    else if tld in table then B.Found(table[tld])
    else B.NoServer
  }

  /** A loaded table answers with the last entry that lists the label, exactly when there is one. */
  lemma TabulatedAnswer(table: map<string, Urls>, services: seq<seq<B.Json>>, tld: string)
    requires Tabulates(table, services) && tld != ""
    ensures var r := AnswerFor(table, tld);
      && !r.InvalidInput?
      && (r.NotInitialized? <==> forall other :: LastListing(services, other) == None)
      && forall urls :: r == B.Found(urls) <==> LastListing(services, tld) == Some(urls)
  {
    if table != map[] {
      var other :| other in table;
      assert LastListing(services, other).Some?;
    }
    forall other | table == map[] ensures LastListing(services, other) == None {
      assert other !in table;
    }
  }

  class DNSBootstrap {
    var tldToURLs: map<string, Urls>

    constructor ()
      ensures tldToURLs == map[]
    {
      tldToURLs := map[];
    }

    /** The new table answers, for every label, with the last service entry that lists it. */
    method LoadDNS(services: seq<seq<B.Json>>)
      modifies this
      ensures Tabulates(tldToURLs, services)
    {
      var table: map<string, Urls> := map[];
      for i := 0 to |services|
        invariant Tabulates(table, services[..i])
      {
        assert services[..i + 1][..i] == services[..i];
        var entry := B.ParseServiceEntry(services[i]);
        if entry.Some? {
          table := AddKeys(table, entry.value.keys, entry.value.urls);
        }
      }
      assert services[..|services|] == services;
      tldToURLs := table;
    }

    method AddKeys(before: map<string, Urls>, keys: seq<string>, urls: Urls) returns (table: map<string, Urls>)
      ensures forall tld :: tld in table <==> tld in before || Lists(keys, tld)
      ensures forall tld :: tld in table ==> table[tld] == if Lists(keys, tld) then urls else before[tld]
    {
      table := before;
      for j := 0 to |keys|
        invariant forall tld :: tld in table <==> tld in before || Lists(keys[..j], tld)
        invariant forall tld :: tld in table ==> table[tld] == if Lists(keys[..j], tld) then urls else before[tld]
      {
        assert keys[..j + 1][..j] == keys[..j];
        table := table[ToLower(keys[j]) := urls];
      }
      assert keys[..|keys|] == keys;
    }

    /** Resolves by the last label, whatever its letter case. */
    method ResolveDomain(domain: string) returns (r: B.Resolved)
      ensures r == if domain == "" then B.InvalidInput else AnswerFor(tldToURLs, ToLower(ResolverTLD(domain)))
    {
      if domain == "" {
        return B.InvalidInput;
      }
      if |tldToURLs| == 0 {
        return B.NotInitialized;
      }
      var tld := ResolverTLD(domain);
      if tld == "" {
        return B.InvalidInput;
      }
      var lower := ToLower(tld);
      r := if lower in tldToURLs then B.Found(tldToURLs[lower]) else B.NoServer;
    }
  }

  function LastLabel(name: string): string {
    Labels(name)[|Labels(name)| - 1]
  }

  /** Some key of service `i` is the label, in any letter case. */
  predicate ListsLabel(says: seq<Option<B.ServiceEntry>>, i: int, tld: string) {
    && 0 <= i < |says| && says[i].Some?
    && exists key :: key in says[i].value.keys && ToLower(key) == tld
  }

  /** Service `i` lists the label, no later one does, and its URLs are these. */
  predicate LastLists(says: seq<Option<B.ServiceEntry>>, i: int, tld: string, urls: Urls) {
    && ListsLabel(says, i, tld) && says[i].value.urls == urls
    && forall j :: i < j < |says| ==> !ListsLabel(says, j, tld)
  }

  lemma {:induction false} ListsExactly(keys: seq<string>, tld: string)
    ensures Lists(keys, tld) <==> exists key :: key in keys && ToLower(key) == tld
  {
    if keys != [] {
      var n := |keys| - 1;
      ListsExactly(keys[..n], tld);
      assert keys == keys[..n] + [keys[n]];
    }
  }

  /** One service more comes last if it lists the label, and changes nothing otherwise. */
  lemma LastListsMore(says: seq<Option<B.ServiceEntry>>, tld: string, urls: Urls)
    requires says != []
    ensures var n := |says| - 1;
      (exists i :: LastLists(says, i, tld, urls)) <==>
        if ListsLabel(says, n, tld) then says[n].value.urls == urls
        else exists i :: LastLists(says[..n], i, tld, urls)
  {
    var n := |says| - 1;
    assert forall j :: 0 <= j < n ==> says[..n][j] == says[j];
    assert forall j :: 0 <= j < n ==> (ListsLabel(says[..n], j, tld) <==> ListsLabel(says, j, tld));
    if ListsLabel(says, n, tld) {
      assert says[n].value.urls == urls ==> LastLists(says, n, tld, urls);
    } else {
      forall i ensures LastLists(says, i, tld, urls) <==> LastLists(says[..n], i, tld, urls) {
      }
    }
  }

  /** What the last listing of a label is, in terms of what the file says. */
  lemma {:induction false} LastListingSays(services: seq<seq<B.Json>>, says: seq<Option<B.ServiceEntry>>, tld: string,
      urls: Urls)
    requires B.FileSays(services, says)
    ensures LastListing(services, tld) == Some(urls) <==> exists i :: LastLists(says, i, tld, urls)
  {
    if services != [] {
      var n := |services| - 1;
      B.FileSaysBefore(services, says);
      LastListingSays(services[..n], says[..n], tld, urls);
      LastListsMore(says, tld, urls);
      if says[n].Some? {
        ListsExactly(says[n].value.keys, tld);
      }
    }
  }

  /** A service that is not malformed lists some label. */
  lemma {:induction false} SomeLabelListed(services: seq<seq<B.Json>>, says: seq<Option<B.ServiceEntry>>, i: nat)
    returns (tld: string)
    requires B.FileSays(services, says) && i < |says| && says[i].Some?
    ensures LastListing(services, tld).Some?
  {
    var n := |services| - 1;
    B.FileSaysBefore(services, says);
    if i < n {
      tld := SomeLabelListed(services[..n], says[..n], i);
    } else {
      tld := ToLower(says[n].value.keys[|says[n].value.keys| - 1]);
    }
  }

  lemma {:induction false} MalformedListsNothing(services: seq<seq<B.Json>>, says: seq<Option<B.ServiceEntry>>,
      tld: string)
    requires B.FileSays(services, says) && forall i :: 0 <= i < |says| ==> says[i].None?
    ensures LastListing(services, tld) == None
  {
    if services != [] {
      B.FileSaysBefore(services, says);
      MalformedListsNothing(services[..|services| - 1], says[..|says| - 1], tld);
    }
  }

  /** No label is listed exactly if every service is malformed. */
  lemma NothingListed(services: seq<seq<B.Json>>, says: seq<Option<B.ServiceEntry>>)
    requires B.FileSays(services, says)
    ensures (forall tld :: LastListing(services, tld) == None) <==> forall i :: 0 <= i < |says| ==> says[i].None?
  {
    if i :| 0 <= i < |says| && says[i].Some? {
      var tld := SomeLabelListed(services, says, i);
    } else {
      forall tld ensures LastListing(services, tld) == None {
        MalformedListsNothing(services, says, tld);
      }
    }
  }

  /**
   Load, then resolve, for any file: an accepted name gets the URLs of the last service that lists the
   last of its labels, in any letter case, is unknown exactly when none does, and is never an invalid input.
   */
  method LoadAndResolve(services: seq<seq<B.Json>>, name: string, ghost says: seq<Option<B.ServiceEntry>>)
    returns (r: B.Resolved)
    requires Acceptable(name) && B.FileSays(services, says)
    ensures !r.InvalidInput?
    ensures forall urls :: r == B.Found(urls) <==> exists i :: LastLists(says, i, LastLabel(name), urls)
    ensures r.NotInitialized? <==> forall i :: 0 <= i < |says| ==> says[i].None?
  {
    var dns := new DNSBootstrap();
    dns.LoadDNS(services);
    r := dns.ResolveDomain(name);
    AcceptedNamesRouteAlike(name);
    TabulatedAnswer(dns.tldToURLs, services, LastLabel(name));
    forall urls ensures r == B.Found(urls) <==> exists i :: LastLists(says, i, LastLabel(name), urls) {
      LastListingSays(services, says, LastLabel(name), urls);
    }
    NothingListed(services, says);
  }
}
