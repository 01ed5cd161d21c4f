/**
 Fetching domain data: RDAP first, WHOIS when no RDAP server is known for the top-level domain.
 Everything outside the process is an argument: what the bootstrap registry, the RDAP servers,
 the WHOIS server and the encoder answer.
 */
module DomainLookup {
  import opened CacheTypes
  import opened LookupErrors
  import opened RdapClient

  /** An RDAP object that either is a domain, with its encoding if that succeeds, or is not. */
  datatype RdapObject = Domain(encoding: Option<Bytes>) | OtherObject

  datatype Resolution = Urls(count: nat) | Unknown | NotInitialized | InvalidName

  datatype Whois =
    | QueryFailed(domainNotFound: bool, canceled: bool, deadline: bool)
    | ParseFailed
    | Parsed(encoding: Option<Bytes>)
    | NothingParsed

  datatype Env = Env(
    nameEmpty: bool,
    resolution: Resolution,
    maxRetries: int,
    attempts: (nat, nat) -> Attempt<RdapObject>,
    whoisEnabled: bool,
    whoisClient: bool,
    whois: Whois)

  ghost function Tries(env: Env): seq<Try<RdapObject>>
    requires env.resolution.Urls?
  {
    Schedule(env.resolution.count, PerServer(env.maxRetries), env.attempts)
  }

  /** The RDAP client's domain query. */
  ghost function QueryDomain(env: Env): Result<Option<Bytes>> {
    if env.nameEmpty then Failure(Sentinel(BootstrapInvalidInput))
    else
      match env.resolution
      case Unknown => Failure(Wrap([Sentinel(BootstrapNotFound)]))
      case NotInitialized => Failure(Wrap([Sentinel(BootstrapNotInitialized)]))
      case InvalidName => Failure(Wrap([Sentinel(BootstrapInvalidInput)]))
      case Urls(n) =>
        if n == 0 then Failure(Sentinel(NoServers))
        else
          var r: Result<RdapObject> := RetryOutcome(Tries(env));
          if r.Failure? then Failure(r.error)
          else if r.value.OtherObject? then Failure(Wrap([Sentinel(InvalidResponse)]))
          else Success(r.value.encoding)
  }

  function Encoded(encoding: Option<Bytes>): Result<Bytes> {
    match encoding
    case Some(b) => Success(b)
    case None => Failure(Foreign(false, false))
  }

  function FetchDomainViaWHOIS(client: bool, whois: Whois): Result<Bytes> {
    if !client then Failure(Sentinel(BootstrapNotFound))
    else
      match whois
      case QueryFailed(domainNotFound, canceled, deadline) =>
        if domainNotFound then Failure(Sentinel(NotFound)) else Failure(Wrap([Foreign(canceled, deadline)]))
      case ParseFailed => Failure(Foreign(false, false))
      case NothingParsed => Failure(Sentinel(NotFound))
      case Parsed(encoding) => Encoded(encoding)
  }

  ghost function FetchDomainData(env: Env): Result<Bytes> {
    match QueryDomain(env)
    case Success(encoding) => Encoded(encoding)
    case Failure(e) =>
      if !e.Is(BootstrapNotFound) || !env.whoisEnabled then Failure(e)
      else FetchDomainViaWHOIS(env.whoisClient, env.whois)
  }

  /** The first decisive RDAP attempt is an answer that the domain does not exist. */
  ghost predicate RdapReportsNotFound(env: Env) {
    && !env.nameEmpty
    && env.resolution.Urls? && env.resolution.count > 0
    && exists k: nat ::
      FirstDecisive(Tries(env), k) && !Tries(env)[k].EndsInWait() && SaysNotFound(Tries(env)[k].attempt.http)
  }

  /** No RDAP server is known for the name, and WHOIS was asked and says the domain does not exist. */
  predicate WhoisReportsNotFound(env: Env) {
    && !env.nameEmpty
    && env.resolution.Unknown? && env.whoisEnabled && env.whoisClient
    && (env.whois.NothingParsed? || (env.whois.QueryFailed? && env.whois.domainNotFound))
  }

  /** An attempt never fails with a bootstrap error, so retrying cannot produce one. */
  lemma AttemptsCarryNoBootstrapError<T>(h: Http<T>)
    ensures DoQuery(h).Failure? ==> !DoQuery(h).error.Is(BootstrapNotFound)
  {
    IsOfWrap1(Sentinel(InvalidResponse), BootstrapNotFound);
    IsOfWrap1(Sentinel(ServerError), BootstrapNotFound);
    IsOfWrap1(Foreign(false, false), BootstrapNotFound);
    match h
    case NoResponse(canceled, deadline) =>
      IsOfWrap1(Foreign(canceled, false), BootstrapNotFound);
    case Response(status, Unreadable(canceled, deadline)) =>
      IsOfWrap1(Foreign(canceled, deadline), BootstrapNotFound);
    case Response(status, Undecodable) =>
      IsOfWrap2(Sentinel(InvalidResponse), Foreign(false, false), BootstrapNotFound);
    case _ =>
  }

  /**
   The outcome of the retry loop is not-found exactly when its first decisive attempt is a server's
   answer that says so; an exhausted loop is never not-found, nor a bootstrap error.
   */
  lemma RetryNotFoundExactlyWhen<T>(log: seq<Try<T>>)
    requires forall i :: 0 <= i < |log| && log[i].EndsInWait() ==>
      log[i].attempt.contextEnds.value in {Canceled, DeadlineExceeded}
    ensures RetryOutcome(log).Failure? && RetryOutcome(log).error.Is(NotFound) <==>
      exists k: nat :: FirstDecisive(log, k) && !log[k].EndsInWait() && SaysNotFound(log[k].attempt.http)
    ensures RetryOutcome(log).Failure? ==> !RetryOutcome(log).error.Is(BootstrapNotFound)
  {
    if k: nat :| FirstDecisive(log, k) {
      FirstDecisiveDecides(log, k);
      NotFoundOnlyIfSaid(log[k].attempt.http);
      AttemptsCarryNoBootstrapError(log[k].attempt.http);
      forall k': nat | FirstDecisive(log, k') ensures k' == k {
        FirstDecisiveUnique(log, k, k');
      }
    } else {
      AllIndecisive(log, |log|);
      NoneDecisiveExhausts(log);
      ExhaustedCarriesNoVerdict(log, NotFound);
      if LastError(log).Some? {
        AttemptsCarryNoBootstrapError(log[|log| - 1].attempt.http);
        IsOfWrap2(Sentinel(AllServersFailed), LastError(log).value, BootstrapNotFound);
      }
    }
  }

  lemma {:induction false} AllIndecisive<T>(log: seq<Try<T>>, n: nat)
    requires n <= |log| && !exists k: nat :: FirstDecisive(log, k)
    ensures NoneBefore(log, n)
  {
    if n > 0 {
      AllIndecisive(log, n - 1);
      assert !FirstDecisive(log, n - 1);
    }
  }

  /** The wait between attempts is cut short only by the end of the context. */
  ghost predicate ContextErrorsOnly(env: Env) {
    forall i: nat, j: nat :: env.attempts(i, j).contextEnds.Some? ==>
      env.attempts(i, j).contextEnds.value in {Canceled, DeadlineExceeded}
  }

  lemma {:induction false} ScheduleDrawsOn<T>(servers: nat, per: nat, attempts: (nat, nat) -> Attempt<T>, n: nat)
    requires n < |Schedule(servers, per, attempts)|
    ensures exists i: nat, j: nat :: Schedule(servers, per, attempts)[n].attempt == attempts(i, j)
  {
    if n < |Schedule(servers - 1, per, attempts)| {
      ScheduleDrawsOn(servers - 1, per, attempts, n);
    } else {
      var j := n - |Schedule(servers - 1, per, attempts)|;
      assert Schedule(servers, per, attempts)[n] == Row(servers - 1, per, attempts)[j];
    }
  }

  /**
   Fetching ends in not-found exactly when an RDAP server or the WHOIS side said so. Exhausted
   retries, timeouts, rate limits, and having no server for the name never look like not-found.
   */
  lemma FetchNotFoundExactlyWhen(env: Env)
    requires ContextErrorsOnly(env)
    ensures FetchDomainData(env).Failure? && FetchDomainData(env).error.Is(NotFound) <==>
      RdapReportsNotFound(env) || WhoisReportsNotFound(env)
  {
    IsOfWrap1(Sentinel(BootstrapNotFound), NotFound);
    IsOfWrap1(Sentinel(BootstrapNotFound), BootstrapNotFound);
    IsOfWrap1(Sentinel(BootstrapNotInitialized), NotFound);
    IsOfWrap1(Sentinel(BootstrapNotInitialized), BootstrapNotFound);
    IsOfWrap1(Sentinel(BootstrapInvalidInput), NotFound);
    IsOfWrap1(Sentinel(BootstrapInvalidInput), BootstrapNotFound);
    IsOfWrap1(Sentinel(InvalidResponse), NotFound);
    IsOfWrap1(Sentinel(InvalidResponse), BootstrapNotFound);
    if env.whois.QueryFailed? {
      IsOfWrap1(Foreign(env.whois.canceled, env.whois.deadline), NotFound);
    }
    if env.resolution.Urls? {
      var log := Tries(env);
      forall n | 0 <= n < |log| && log[n].EndsInWait()
        ensures log[n].attempt.contextEnds.value in {Canceled, DeadlineExceeded}
      {
        ScheduleDrawsOn(env.resolution.count, PerServer(env.maxRetries), env.attempts, n);
      }
      RetryNotFoundExactlyWhen(log);
    }
  }

  // -------------------------------------------- the whole fetch in terms of the answers

  /** Attempt `j` at server `i` is the first RDAP attempt that ends the query. */
  ghost predicate RdapStops(env: Env, i: nat, j: nat) {
    env.resolution.Urls? && env.maxRetries >= 0 && FirstStop(env.resolution.count, env.maxRetries, env.attempts, i, j)
  }

  predicate EndsWaiting(j: nat, a: Attempt<RdapObject>) {
    j > 0 && a.contextEnds.Some?
  }

  /** An RDAP server answers with a domain whose encoding is `b`, and nothing before that answer ends the query. */
  ghost predicate RdapGives(env: Env, b: Bytes) {
    && !env.nameEmpty
    && exists i: nat, j: nat ::
         && RdapStops(env, i, j) && !EndsWaiting(j, env.attempts(i, j))
         && env.attempts(i, j).http == Response(200, Object(Domain(Some(b))))
  }

  /** No RDAP server is known, and WHOIS is asked and gives a record whose encoding is `b`. */
  predicate WhoisGives(env: Env, b: Bytes) {
    && !env.nameEmpty && env.resolution.Unknown? && env.whoisEnabled && env.whoisClient
    && env.whois == Parsed(Some(b))
  }

  /** The kinds of error of a query that ends at this attempt. */
  predicate EndsWith(j: nat, a: Attempt<RdapObject>, kind: Kind) {
    if EndsWaiting(j, a) then kind == a.contextEnds.value
    else if a.http.Response? && a.http.status == 200 && a.http.body.Object? then
      a.http.body.value.OtherObject? && kind == InvalidResponse
    else Reports(a.http, kind)
  }

  /** The kinds of error of an RDAP query for a name with servers. */
  ghost predicate RdapFailsWith(env: Env, kind: Kind)
    requires env.resolution.Urls?
  {
    var n := env.resolution.count;
    if n == 0 then kind == NoServers
    else if env.maxRetries < 0 then kind == AllServersFailed
    else
      || (exists i: nat, j: nat :: RdapStops(env, i, j) && EndsWith(j, env.attempts(i, j), kind))
      || (AllQuiet(env.attempts, n, env.maxRetries + 1) &&
          (kind == AllServersFailed || Reports(env.attempts(n - 1, env.maxRetries).http, kind)))
  }

  predicate WhoisFailsWith(whois: Whois, kind: Kind) {
    match whois
    case QueryFailed(true, _, _) => kind == NotFound
    case QueryFailed(false, canceled, deadline) => (kind.Canceled? && canceled) || (kind.DeadlineExceeded? && deadline)
    case NothingParsed => kind == NotFound
    case _ => false
  }

  /** The kinds of error of the whole fetch. */
  ghost predicate FailsWith(env: Env, kind: Kind) {
    if env.nameEmpty then kind == BootstrapInvalidInput
    else
      match env.resolution
      case Urls(_) => RdapFailsWith(env, kind)
      case InvalidName => kind == BootstrapInvalidInput
      case NotInitialized => kind == BootstrapNotInitialized
      case Unknown =>
        if env.whoisEnabled && env.whoisClient then WhoisFailsWith(env.whois, kind) else kind == BootstrapNotFound
  }

  /** Where the RDAP query ends, and what its object or error is. */
  lemma RdapEnds(env: Env, kind: Kind) returns (i: nat, j: nat)
    requires !env.nameEmpty && env.resolution.Urls? && env.resolution.count > 0 && env.maxRetries >= 0
    ensures i < env.resolution.count ==>
      && RdapStops(env, i, j) && HandsOver(j, env.attempts(i, j), RetryOutcome(Tries(env)))
      && !AllQuiet(env.attempts, env.resolution.count, env.maxRetries + 1)
    ensures forall i': nat, j': nat :: RdapStops(env, i', j') ==> i < env.resolution.count && i' == i && j' == j
    ensures i >= env.resolution.count ==>
      && AllQuiet(env.attempts, env.resolution.count, env.maxRetries + 1) && RetryOutcome(Tries(env)).Failure?
      && (RetryOutcome(Tries(env)).error.Is(kind) <==>
            kind == AllServersFailed || Reports(env.attempts(env.resolution.count - 1, env.maxRetries).http, kind))
  {
    i, j := StopsOrNot(env.resolution.count, env.maxRetries, env.attempts);
    if i == env.resolution.count {
      NothingStopsExhausts(env.resolution.count, env.maxRetries, env.attempts);
    } else {
      FirstStopDecides(env.resolution.count, env.maxRetries, env.attempts, i, j);
      StopsOrQuiet(env.resolution.count, env.maxRetries, env.attempts, i, j);
    }
    forall i': nat, j': nat | RdapStops(env, i', j')
      ensures i < env.resolution.count && i' == i && j' == j
    {
      StopsOrQuiet(env.resolution.count, env.maxRetries, env.attempts, i', j');
      if i < env.resolution.count {
        FirstStopIsUnique(env.resolution.count, env.maxRetries, env.attempts, i, j, i', j');
      }
    }
  }

  /** With servers to ask, WHOIS plays no part: the fetch is the RDAP query and the encoding of its object. */
  lemma ServersDecide(env: Env)
    requires ContextErrorsOnly(env) && !env.nameEmpty && env.resolution.Urls? && env.resolution.count > 0
    ensures var r: Result<RdapObject> := RetryOutcome(Tries(env));
      FetchDomainData(env) ==
        if r.Failure? then Failure(r.error)
        else if r.value.OtherObject? then Failure(Wrap([Sentinel(InvalidResponse)]))
        else Encoded(r.value.encoding)
  {
    var log := Tries(env);
    forall n | 0 <= n < |log| && log[n].EndsInWait()
      ensures log[n].attempt.contextEnds.value in {Canceled, DeadlineExceeded}
    {
      ScheduleDrawsOn(env.resolution.count, PerServer(env.maxRetries), env.attempts, n);
    }
    RetryNotFoundExactlyWhen(log);
    IsOfWrap1(Sentinel(InvalidResponse), BootstrapNotFound);
  }

  /** The RDAP part: success exactly with the encoded domain of the first attempt that ends the query. */
  lemma RdapSucceedsExactlyWhen(env: Env, b: Bytes)
    requires ContextErrorsOnly(env) && !env.nameEmpty && env.resolution.Urls? && env.resolution.count > 0
    ensures FetchDomainData(env) == Success(b) <==> RdapGives(env, b)
  {
    ServersDecide(env);
    if env.maxRetries < 0 {
      NoAttempts(env.resolution.count, env.attempts);
    } else {
      hide RdapStops, AllQuiet, Tries;
      var i, j := RdapEnds(env, NotFound);
    }
  }

  /**
   Exactly when the fetch of a domain succeeds, and with what: with the encoded domain of the first
   RDAP answer that ends the query, or, for a name without RDAP server, with the encoded WHOIS record.
   */
  lemma FetchSucceedsExactlyWhen(env: Env, b: Bytes)
    requires ContextErrorsOnly(env)
    ensures FetchDomainData(env) == Success(b) <==> RdapGives(env, b) || WhoisGives(env, b)
  {
    IsOfWrap1(Sentinel(BootstrapNotFound), BootstrapNotFound);
    if !env.nameEmpty && env.resolution.Urls? && env.resolution.count > 0 {
      RdapSucceedsExactlyWhen(env, b);
    }
  }

  lemma RdapFailsExactlyWith(env: Env, kind: Kind)
    requires ContextErrorsOnly(env) && !env.nameEmpty && env.resolution.Urls? && env.resolution.count > 0
    requires FetchDomainData(env).Failure?
    ensures FetchDomainData(env).error.Is(kind) <==> RdapFailsWith(env, kind)
  {
    ServersDecide(env);
    IsOfWrap1(Sentinel(InvalidResponse), kind);
    if env.maxRetries < 0 {
      NoAttempts(env.resolution.count, env.attempts);
    } else {
      hide RdapStops, AllQuiet, Tries, Reports;
      var i, j := RdapEnds(env, kind);
    }
  }

  lemma WhoisFailsExactlyWith(whois: Whois, kind: Kind)
    ensures var r := FetchDomainViaWHOIS(true, whois);
      r.Failure? ==> (r.error.Is(kind) <==> WhoisFailsWith(whois, kind))
  {
    if whois.QueryFailed? {
      IsOfWrap1(Foreign(whois.canceled, whois.deadline), kind);
    }
  }

  /** And with which errors it fails, for every kind of error. */
  lemma FetchFailsExactlyWith(env: Env, kind: Kind)
    requires ContextErrorsOnly(env) && FetchDomainData(env).Failure?
    ensures FetchDomainData(env).error.Is(kind) <==> FailsWith(env, kind)
  {
    hide Tries, AllQuiet, RdapStops, Reports, WhoisFailsWith;
    IsOfWrap1(Sentinel(BootstrapNotFound), BootstrapNotFound);
    IsOfWrap1(Sentinel(BootstrapNotInitialized), BootstrapNotFound);
    IsOfWrap1(Sentinel(BootstrapInvalidInput), BootstrapNotFound);
    if env.nameEmpty || env.resolution.InvalidName? {
      IsOfWrap1(Sentinel(BootstrapInvalidInput), kind);
    } else if env.resolution.NotInitialized? {
      IsOfWrap1(Sentinel(BootstrapNotInitialized), kind);
    } else if env.resolution.Unknown? {
      IsOfWrap1(Sentinel(BootstrapNotFound), kind);
      WhoisFailsExactlyWith(env.whois, kind);
    } else if env.resolution.count > 0 {
      RdapFailsExactlyWith(env, kind);
    }
  }
}

/**
 The WHOIS side as it really answers. The client reports no missing domain, and every parser fills a
 record, also for a response that says that the name is free.
 */
module WhoisFallback {
  import opened CacheTypes
  import opened LookupErrors
  import opened RdapClient
  import opened WhoisRecord
  import D = DomainLookup
  import DE = DEParser
  import EU = EUParser
  import Text

  datatype Exchange = NoAnswer(canceled: bool, deadline: bool) | Answer(response: string)

  datatype Registry = Denic | Eurid

  /** How a parsed record, with its confidence, becomes the bytes to cache; nothing if that fails. */
  type Encoder = (Record, Confidence) -> Option<Bytes>

  ghost function ParsedBy(registry: Registry, response: string, name: string, parseDate: string -> Option<int>)
    : (Record, Confidence)
  {
    match registry
    case Denic => (DE.Parsed(response, name, parseDate), if DE.SaysFree(response) then Low else High)
    case Eurid => (EU.Parsed(response, name, parseDate), if EU.SaysAvailable(response) then Low else High)
  }

  /** The outcome that this exchange is for the lookup. */
  ghost function Outcome(registry: Registry, exchange: Exchange, name: string, parseDate: string -> Option<int>,
      encode: Encoder): D.Whois
  {
    match exchange
    case NoAnswer(canceled, deadline) => D.QueryFailed(false, canceled, deadline)
    case Answer(response) =>
      var (record, confidence) := ParsedBy(registry, response, name, parseDate);
      D.Parsed(encode(record, confidence))
  }

  /** Queries, parses and encodes. An answer always ends in its record, never in not-found. */
  method FetchDomainViaWHOIS(registry: Registry, client: bool, exchange: Exchange, name: string,
      parseDate: string -> Option<int>, encode: Encoder) returns (r: Result<Bytes>)
    ensures r == D.FetchDomainViaWHOIS(client, Outcome(registry, exchange, name, parseDate, encode))
    ensures r.Failure? ==> !r.error.Is(NotFound)
  {
    if !client {
      return Failure(Sentinel(BootstrapNotFound));
    }
    match exchange {
      case NoAnswer(canceled, deadline) =>
        IsOfWrap1(Foreign(canceled, deadline), NotFound);
        return Failure(Wrap([Foreign(canceled, deadline)]));
      case Answer(response) =>
        var pd: ParsedDomain, confidence;
        match registry {
          case Denic => pd, confidence := DE.Parse(response, name, parseDate);
          case Eurid => pd, confidence := EU.Parse(response, name, parseDate);
        }
        var record := Record(pd.main, pd.registrant, pd.adminContact, pd.techContact, pd.registrar);
        return D.Encoded(encode(record, confidence));
    }
  }

  /** The record of a name, and nothing else. */
  function Bare(name: string): Record {
    NO_RECORD.(main := NO_MAIN.(domainName := Text.ToLower(name)))
  }

  predicate SaysNameIsFree(registry: Registry, response: string) {
    if registry.Denic? then DE.SaysFree(response) else EU.SaysAvailable(response)
  }

  /** A response that says that the name is free is still a success: a record with that name and nothing else. */
  lemma FreeNameSucceeds(registry: Registry, response: string, name: string, parseDate: string -> Option<int>,
      encode: Encoder)
    requires SaysNameIsFree(registry, response)
    ensures D.FetchDomainViaWHOIS(true, Outcome(registry, Answer(response), name, parseDate, encode))
      == D.Encoded(encode(Bare(name), Low))
  {
  }

  /** No RDAP server is known for the name, and the registry's WHOIS server says that it is free. */
  ghost predicate FreeName(env: D.Env, name: string, encode: Encoder) {
    && !env.nameEmpty && env.resolution.Unknown? && env.whoisEnabled && env.whoisClient
    && exists registry, response, parseDate ::
         SaysNameIsFree(registry, response) &&
         env.whois == Outcome(registry, Answer(response), name, parseDate, encode)
  }

  /** The whole fetch for such a name succeeds with the bare record. */
  lemma FreeNameFetched(env: D.Env, name: string, encode: Encoder)
    requires FreeName(env, name, encode)
    ensures D.FetchDomainData(env) == D.Encoded(encode(Bare(name), Low))
  {
    var registry, response, parseDate :|
      SaysNameIsFree(registry, response) &&
      env.whois == Outcome(registry, Answer(response), name, parseDate, encode);
    FreeNameSucceeds(registry, response, name, parseDate, encode);
    IsOfWrap1(Sentinel(BootstrapNotFound), BootstrapNotFound);
  }

  /** The environment's WHOIS side answers like one of these exchanges. */
  ghost predicate Answers(env: D.Env) {
    exists registry, exchange, name, parseDate, encode ::
      env.whois == Outcome(registry, exchange, name, parseDate, encode)
  }

  /**
   What that comes to, with the encoder left open: a query may fail, but not by reporting a missing
   domain, and an answer is always parsed. It rests on what `Exchange` can hold, not on the parsers.
   */
  lemma AnswersExactlyWhen(env: D.Env)
    ensures Answers(env) <==> env.whois.Parsed? || (env.whois.QueryFailed? && !env.whois.domainNotFound)
  {
    match env.whois
    case Parsed(encoding) =>
      var encode: Encoder := (record, confidence) => encoding;
      assert env.whois == Outcome(Denic, Answer(""), "", text => None, encode);
    case QueryFailed(domainNotFound, canceled, deadline) =>
      if !domainNotFound {
        var encode: Encoder := (record, confidence) => None;
        assert env.whois == Outcome(Denic, NoAnswer(canceled, deadline), "", text => None, encode);
      }
    case _ =>
  }

  /** So only RDAP ever makes a domain not-found, and it does exactly when a server says so first. */
  lemma NotFoundExactlyWhenRdapSays(env: D.Env)
    requires D.ContextErrorsOnly(env) && Answers(env)
    ensures D.FetchDomainData(env).Failure? && D.FetchDomainData(env).error.Is(NotFound) <==> D.RdapReportsNotFound(env)
  {
    D.FetchNotFoundExactlyWhen(env);
  }
}

/** The whole chain, from a server's answer to a negative cache entry. */
module NegativeCaching {
  import opened CacheTypes
  import opened TierModel
  import opened LookupErrors
  import R = RdapClient
  import D = DomainLookup
  import F = Flight
  import W = WhoisFallback
  import opened WhoisRecord

  function AsFetched(r: R.Result<Bytes>): F.Fetched {
    match r
    case Success(v) => F.Got(v)
    case Failure(e) => F.Failed(e)
  }

  /**
   Every fetch for `k` that returns in the run is a domain fetch, in the environment that `envs` gives
   for it. Fetches for other keys may be of any kind.
   */
  ghost predicate DomainFetches(su: F.Setup, trace: seq<F.Event>, envs: seq<D.Env>, k: Key) {
    && |envs| == |trace|
    && forall i :: 0 <= i < |trace| && FetchFor(su, trace[i], k) ==>
         D.ContextErrorsOnly(envs[i]) && trace[i].result == AsFetched(D.FetchDomainData(envs[i]))
  }

  predicate FetchFor(su: F.Setup, ev: F.Event, k: Key) {
    ev.FetchReturns? && ev.c < |su.calls| && su.calls[ev.c].key == k
  }

  ghost predicate NegativeEntry(su: F.Setup, trace: seq<F.Event>, k: Key)
    requires F.IsRun(su, F.Start(su), trace)
  {
    var t := F.Run(su, F.Start(su), trace).tiers;
    (k in t.l1 && t.l1[k].negative) || (k in t.l2 && t.l2[k].item.negative)
  }

  /**
   Negative caching is sound: over every interleaving of callers, a negative entry for a key sits in
   a tier only if, during the run, an RDAP server or the WHOIS side answered for that key that the
   domain does not exist.
   */
  lemma NegativeEntriesAreReported(su: F.Setup, trace: seq<F.Event>, envs: seq<D.Env>, k: Key)
    requires F.IsRun(su, F.Start(su), trace) && su.initial == Tiers(map[], map[])
    requires DomainFetches(su, trace, envs, k) && NegativeEntry(su, trace, k)
    ensures exists i ::
      && 0 <= i < |trace| && FetchFor(su, trace[i], k)
      && (D.RdapReportsNotFound(envs[i]) || D.WhoisReportsNotFound(envs[i]))
  {
    F.NegativeEntryHasNotFoundFetch(su, trace, k);
    var i :|
      && 0 <= i < |trace| && trace[i].FetchReturns? && trace[i].c < |su.calls|
      && su.calls[trace[i].c] == F.Call(k, F.WithNegative)
      && trace[i].result.Failed? && trace[i].result.err.Is(NotFound);
    assert FetchFor(su, trace[i], k);
    D.FetchNotFoundExactlyWhen(envs[i]);
  }

  /** As the WHOIS side really answers, that is always an RDAP server. */
  lemma NegativeEntriesComeFromRdap(su: F.Setup, trace: seq<F.Event>, envs: seq<D.Env>, k: Key)
    requires F.IsRun(su, F.Start(su), trace) && su.initial == Tiers(map[], map[])
    requires DomainFetches(su, trace, envs, k) && NegativeEntry(su, trace, k)
    requires forall i :: 0 <= i < |envs| ==> W.Answers(envs[i])
    ensures exists i :: 0 <= i < |trace| && FetchFor(su, trace[i], k) && D.RdapReportsNotFound(envs[i])
  {
    NegativeEntriesAreReported(su, trace, envs, k);
    var i :|
      && 0 <= i < |trace| && FetchFor(su, trace[i], k)
      && (D.RdapReportsNotFound(envs[i]) || D.WhoisReportsNotFound(envs[i]));
    assert W.Answers(envs[i]);
  }

  /** Every fetch for `k` that returns in the run is for a name that its WHOIS registry says is free. */
  ghost predicate FreeNameFetches(su: F.Setup, trace: seq<F.Event>, envs: seq<D.Env>, k: Key, name: string,
      encode: W.Encoder)
  {
    && |envs| == |trace|
    && forall i :: 0 <= i < |trace| && FetchFor(su, trace[i], k) ==>
         W.FreeName(envs[i], name, encode) && trace[i].result == AsFetched(D.FetchDomainData(envs[i]))
  }

  /**
   End to end, over every interleaving: a free name without an RDAP server is never not-found. If every
   fetch for it gets a WHOIS answer that says it is free, then whatever either tier holds for it is the
   positive entry of the bare record, and every caller, through either entry point, is told that it succeeded with that.
   */
  lemma FreeNameServedAsSuccess(su: F.Setup, trace: seq<F.Event>, envs: seq<D.Env>, k: Key, name: string,
      encode: W.Encoder, encoded: Bytes)
    requires F.IsRun(su, F.Start(su), trace) && su.initial == Tiers(map[], map[])
    requires FreeNameFetches(su, trace, envs, k, name, encode) && encode(W.Bare(name), Low) == Some(encoded)
    ensures F.HoldsOnly(su, F.Run(su, F.Start(su), trace), k, encoded)
  {
    forall i | 0 <= i < |trace| && FetchFor(su, trace[i], k) ensures trace[i].result == F.Got(encoded) {
      W.FreeNameFetched(envs[i], name, encode);
    }
    F.OneValueEverywhere(su, trace, k, encoded);
  }

  /**
   And it happens: from any state in which such a fetch is running, its return stores the positive
   entry, and a later caller within the TTL, through either entry point, is served it as a success.
   */
  lemma FreeNameIsCached(su: F.Setup, s: F.State, w: nat, env: D.Env, name: string, encode: W.Encoder,
      encoded: Bytes, elapsed: nat, p: nat)
    requires |s.phases| == |su.calls| && w < |su.calls| && p < |su.calls| && su.calls[w].key == su.calls[p].key
    requires s.phases[w].Fetching? && s.phases[p].Probe1? && elapsed <= su.cfg.defaultTTL
    requires W.FreeName(env, name, encode) && encode(W.Bare(name), Low) == Some(encoded)
    ensures var returned := F.FetchReturns(w, AsFetched(D.FetchDomainData(env)));
      var run := [returned, F.StoreL1(w), F.Tick(elapsed), F.ReadL1(p)];
      && F.IsRun(su, s, run) && |F.Run(su, s, run).phases| == |su.calls|
      && F.Run(su, s, run).phases[p] == F.Done(F.Value(encoded), true)
      && su.calls[w].key in F.Run(su, s, run).tiers.l1
      && F.Run(su, s, run).tiers.l1[su.calls[w].key] == Entry(encoded, s.now + su.cfg.defaultTTL, false)
  {
    W.FreeNameFetched(env, name, encode);
    F.FetchedValueServed(su, s, w, encoded, elapsed, p);
  }
}
