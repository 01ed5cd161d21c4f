/** The RDAP client: classification of one query, and the retry loop over servers and attempts. */
module RdapClient {
  import opened CacheTypes
  import opened LookupErrors

  datatype Result<+T> = Success(value: T) | Failure(error: Err)

  /** The body of a 200 answer. A read may fail because the context ended. */
  datatype Body<+T> =
    | Unreadable(canceled: bool, deadline: bool)
    | Undecodable
    | RdapError(code: Option<int>)
    | Object(value: T)

  /** What one HTTP exchange comes to. */
  datatype Http<+T> =
    | NoRequest
    | NoResponse(canceled: bool, deadline: bool)
    | Response(status: int, body: Body<T>)

  function DoQuery<T>(h: Http<T>): Result<T> {
    match h
    case NoRequest => Failure(Wrap([Foreign(false, false)]))
    case NoResponse(canceled, deadline) =>
      if deadline then Failure(Sentinel(RequestTimeout)) else Failure(Wrap([Foreign(canceled, false)]))
    case Response(status, body) =>
      if status == 200 then ReadBody(body)
      else if status == 404 then Failure(Sentinel(NotFound))
      else if status == 429 then Failure(Sentinel(RateLimited))
      else if status == 400 then Failure(Wrap([Sentinel(InvalidResponse)]))
      else if status >= 500 then Failure(Wrap([Sentinel(ServerError)]))
      else Failure(Wrap([Sentinel(InvalidResponse)]))
  }

  function ReadBody<T>(body: Body<T>): Result<T> {
    match body
    case Unreadable(canceled, deadline) => Failure(Wrap([Foreign(canceled, deadline)]))
    case Undecodable => Failure(Wrap([Sentinel(InvalidResponse), Foreign(false, false)]))
    case RdapError(code) =>
      if code == Some(404) then Failure(Sentinel(NotFound)) else Failure(Wrap([Sentinel(ServerError)]))
    case Object(v) => Success(v)
  }

  /** The server answered, and what it said is that the object does not exist. */
  predicate SaysNotFound<T>(h: Http<T>) {
    h.Response? && (h.status == 404 || (h.status == 200 && h.body == RdapError(Some(404))))
  }

  lemma NotFoundOnlyIfSaid<T>(h: Http<T>)
    ensures DoQuery(h).Failure? && DoQuery(h).error.Is(NotFound) <==> SaysNotFound(h)
  {
    IsOfWrap1(Sentinel(InvalidResponse), NotFound);
    IsOfWrap1(Sentinel(ServerError), NotFound);
    IsOfWrap1(Foreign(false, false), NotFound);
    match h
    case NoResponse(canceled, deadline) =>
      IsOfWrap1(Foreign(canceled, false), NotFound);
    case Response(status, Unreadable(canceled, deadline)) =>
      IsOfWrap1(Foreign(canceled, deadline), NotFound);
    case Response(status, Undecodable) =>
      IsOfWrap2(Sentinel(InvalidResponse), Foreign(false, false), NotFound);
    case _ =>
  }

  /**
   Which error an exchange amounts to, read off what was sent alone. A deadline that passes before the
   answer counts as a timeout, not as the end of the context.
   */
  predicate Reports<T>(h: Http<T>, kind: Kind) {
    match kind
    case NotFound => SaysNotFound(h)
    case RateLimited => h.Response? && h.status == 429
    case ServerError =>
      h.Response? && (h.status >= 500 || (h.status == 200 && h.body.RdapError? && h.body.code != Some(404)))
    case InvalidResponse =>
      h.Response? && if h.status == 200 then h.body.Undecodable? else h.status < 500 && h.status !in {404, 429}
    case RequestTimeout => h.NoResponse? && h.deadline
    case Canceled =>
      || (h.NoResponse? && h.canceled && !h.deadline)
      || (h.Response? && h.status == 200 && h.body.Unreadable? && h.body.canceled)
    case DeadlineExceeded => h.Response? && h.status == 200 && h.body.Unreadable? && h.body.deadline
    case _ => false
  }

  /** A body gives exactly its object, and otherwise an error of exactly the reported kinds. */
  lemma BodyOutcome<T>(body: Body<T>, kind: Kind)
    ensures ReadBody(body).Success? <==> body.Object?
    ensures ReadBody(body).Success? ==> body == Object(ReadBody(body).value)
    ensures ReadBody(body).Failure? ==> (ReadBody(body).error.Is(kind) <==> Reports(Response(200, body), kind))
  {
    match body
    case Unreadable(canceled, deadline) => IsOfWrap1(Foreign(canceled, deadline), kind);
    case Undecodable => IsOfWrap2(Sentinel(InvalidResponse), Foreign(false, false), kind);
    case RdapError(_) => IsOfWrap1(Sentinel(ServerError), kind);
    case Object(_) =>
  }

  /** One query succeeds exactly with the object of a 200 answer, and its error is of exactly the reported kinds. */
  lemma QueryOutcome<T>(h: Http<T>, kind: Kind)
    ensures DoQuery(h).Success? <==> h.Response? && h.status == 200 && h.body.Object?
    ensures DoQuery(h).Success? ==> h == Response(200, Object(DoQuery(h).value))
    ensures DoQuery(h).Failure? ==> (DoQuery(h).error.Is(kind) <==> Reports(h, kind))
  {
    match h
    case NoRequest => IsOfWrap1(Foreign(false, false), kind);
    case NoResponse(canceled, deadline) => IsOfWrap1(Foreign(canceled, false), kind);
    case Response(status, body) =>
      if status == 200 {
        BodyOutcome(body, kind);
      } else {
        IsOfWrap1(Sentinel(InvalidResponse), kind);
        IsOfWrap1(Sentinel(ServerError), kind);
      }
  }

  // -------------------------------------------------------------------- backoff

  /** Milliseconds; the table of the client, capped at its last entry. */
  function CalculateBackoff(attempt: int): (ms: nat) {
    var table := [100, 200, 400, 800, 1600, 3200];
    var idx := if attempt - 1 > 0 then attempt - 1 else 0;
    table[if idx < |table| - 1 then idx else |table| - 1]
  }

  /** Everything that one server's retries ask to wait when all of them are used. */
  function ServerBackoff(retries: int): nat
    decreases if retries > 0 then retries else 0
  {
    if retries <= 0 then 0 else ServerBackoff(retries - 1) + CalculateBackoff(retries)
  }

  function Pow2(n: nat): nat {
    if n == 0 then 1 else 2 * Pow2(n - 1)
  }

  /** Doubling for six retries, then 3.2 seconds for each further one. */
  lemma {:induction false} BackoffClosedForm(retries: nat)
    ensures ServerBackoff(retries) == if retries <= 6 then 100 * (Pow2(retries) - 1) else 6300 + 3200 * (retries - 6)
  {
    if retries > 0 {
      BackoffClosedForm(retries - 1);
      if retries <= 7 {
        assert Pow2(2) == 4 && Pow2(3) == 8 && Pow2(4) == 16 && Pow2(5) == 32 && Pow2(6) == 64;
      }
    }
  }

  // ----------------------------------------------------------------- retry loop

  /** Attempt `retry` of a server: the context may end during the wait before it, else it is made. */
  datatype Attempt<+T> = Attempt(contextEnds: Option<Kind>, http: Http<T>)

  datatype Try<+T> = Try(isRetry: bool, attempt: Attempt<T>) {
    predicate EndsInWait() {
      isRetry && attempt.contextEnds.Some?
    }

    function Verdict(): Result<T> {
      if EndsInWait() then Failure(Sentinel(attempt.contextEnds.value)) else DoQuery(attempt.http)
    }

    /** The loop stops here: success, not-found, or the end of the context. */
    predicate Decisive() {
      || EndsInWait()
      || Verdict().Success?
      || Verdict().error.Is(NotFound) || Verdict().error.Is(Canceled) || Verdict().error.Is(DeadlineExceeded)
    }
  }

  function PerServer(maxRetries: int): nat {
    if maxRetries < 0 then 0 else maxRetries + 1
  }

  function Row<T>(server: nat, n: nat, attempts: (nat, nat) -> Attempt<T>): (r: seq<Try<T>>)
    ensures |r| == n && forall j :: 0 <= j < n ==> r[j] == Try(j > 0, attempts(server, j))
  {
    if n == 0 then [] else Row(server, n - 1, attempts) + [Try(n - 1 > 0, attempts(server, n - 1))]
  }

  /** All attempts that could be made, in the order in which the loop would make them. */
  function Schedule<T>(servers: nat, per: nat, attempts: (nat, nat) -> Attempt<T>): seq<Try<T>> {
    if servers == 0 then [] else Schedule(servers - 1, per, attempts) + Row(servers - 1, per, attempts)
  }

  lemma {:induction false} ScheduleLength<T>(servers: nat, per: nat, attempts: (nat, nat) -> Attempt<T>)
    ensures |Schedule(servers, per, attempts)| == servers * per
  {
    if servers > 0 {
      ScheduleLength(servers - 1, per, attempts);
      assert servers * per == (servers - 1) * per + per;
    }
  }

  lemma PositionInSchedule(servers: nat, per: nat, i: nat, j: nat)
    requires i < servers && j < per
    ensures i * per + j < servers * per
  {
    assert (i + 1) * per <= servers * per;
    assert (i + 1) * per == i * per + per;
  }

  /** The schedule is server-major: attempt `j` of server `i` stands at position `i * per + j`. */
  lemma {:induction false} ScheduleIsServerMajor<T>(servers: nat, per: nat, attempts: (nat, nat) -> Attempt<T>,
      i: nat, j: nat)
    requires i < servers && j < per
    ensures |Schedule(servers, per, attempts)| == servers * per && i * per + j < servers * per
    ensures Schedule(servers, per, attempts)[i * per + j] == Try(j > 0, attempts(i, j))
  {
    ScheduleLength(servers, per, attempts);
    PositionInSchedule(servers, per, i, j);
    ScheduleLength(servers - 1, per, attempts);
    if i < servers - 1 {
      PositionInSchedule(servers - 1, per, i, j);
      ScheduleIsServerMajor(servers - 1, per, attempts, i, j);
    }
  }

  /** None of the first `n` tries is decisive. */
  predicate NoneBefore<T>(log: seq<Try<T>>, n: nat) {
    n <= |log| && forall i :: 0 <= i < n ==> !log[i].Decisive()
  }

  predicate NoneDecisive<T>(log: seq<Try<T>>) {
    NoneBefore(log, |log|)
  }

  predicate FirstDecisive<T>(log: seq<Try<T>>, k: nat) {
    k < |log| && log[k].Decisive() && NoneBefore(log, k)
  }

  function Exhausted(last: Option<Err>): Err {
    match last
    case None => Sentinel(AllServersFailed)
    case Some(e) => Wrap([Sentinel(AllServersFailed), e])
  }

  /** The error of the `n`-th try, if there was one and it failed. */
  function ErrorAt<T>(log: seq<Try<T>>, n: nat): Option<Err>
    requires n <= |log|
  {
    if n == 0 || log[n - 1].Verdict().Success? then None else Some(log[n - 1].Verdict().error)
  }

  function LastError<T>(log: seq<Try<T>>): Option<Err> {
    ErrorAt(log, |log|)
  }

  /** The verdict of the first decisive attempt; failing that, the last error under "all servers failed". */
  ghost function RetryOutcome<T>(log: seq<Try<T>>): Result<T> {
    if exists k: nat :: FirstDecisive(log, k) then
      var k: nat :| FirstDecisive(log, k); log[k].Verdict()
    else Failure(Exhausted(LastError(log)))
  }

  lemma FirstDecisiveUnique<T>(log: seq<Try<T>>, k: nat, k': nat)
    requires FirstDecisive(log, k) && FirstDecisive(log, k')
    ensures k == k'
  {
  }

  lemma FirstDecisiveDecides<T>(log: seq<Try<T>>, k: nat)
    requires FirstDecisive(log, k)
    ensures RetryOutcome(log) == log[k].Verdict()
    ensures Tried(log) == if log[k].EndsInWait() then k else k + 1
  {
    forall k': nat | FirstDecisive(log, k') ensures k' == k {
      FirstDecisiveUnique(log, k, k');
    }
  }

  lemma NoneDecisiveExhausts<T>(log: seq<Try<T>>)
    requires NoneDecisive(log)
    ensures RetryOutcome(log) == Failure(Exhausted(LastError(log)))
  {
  }

  /** Every try of an exhausted schedule failed, and none with not-found or the end of the context. */
  lemma ExhaustedCarriesNoVerdict<T>(log: seq<Try<T>>, target: Kind)
    requires NoneDecisive(log)
    requires target.NotFound? || target.Canceled? || target.DeadlineExceeded?
    ensures !Exhausted(LastError(log)).Is(target)
  {
    if LastError(log).Some? {
      IsOfWrap2(Sentinel(AllServersFailed), LastError(log).value, target);
    }
  }

  /** The attempts really made, or broken off in the wait before them, up to and including the decisive one. */
  ghost function Tried<T>(log: seq<Try<T>>): (n: nat)
    ensures n <= |log|
  {
    if exists k: nat :: FirstDecisive(log, k) then
      var k: nat :| FirstDecisive(log, k); if log[k].EndsInWait() then k else k + 1
    else |log|
  }

  lemma MulStep(i: nat, x: nat)
    ensures (i + 1) * x == i * x + x
  {
  }

  lemma MulMonotone(i: nat, j: nat, x: nat)
    requires i <= j
    ensures i * x <= j * x
  {
  }

  lemma {:induction false} ServerBackoffGrows(a: int, b: int)
    requires a <= b
    ensures ServerBackoff(a) <= ServerBackoff(b)
    decreases b - a
  {
    if a < b {
      ServerBackoffGrows(a, b - 1);
    }
  }

  lemma DecisiveTry<T>(log: seq<Try<T>>, n: nat, t: Try<T>)
    requires NoneBefore(log, n) && n < |log| && log[n] == t && t.Decisive()
    ensures RetryOutcome(log) == t.Verdict() && !NoneDecisive(log)
    ensures Tried(log) == if t.EndsInWait() then n else n + 1
  {
    FirstDecisiveDecides(log, n);
  }

  lemma IndecisiveTry<T>(log: seq<Try<T>>, n: nat, t: Try<T>)
    requires NoneBefore(log, n) && n < |log| && log[n] == t && !t.Decisive()
    ensures NoneBefore(log, n + 1) && ErrorAt(log, n + 1) == Some(t.Verdict().error)
  {
  }

  /** From position `from` on, the schedule holds the attempts at server `i`. */
  ghost predicate RowAt<T>(log: seq<Try<T>>, from: nat, i: nat, per: nat, attempts: (nat, nat) -> Attempt<T>) {
    from + per <= |log| && forall j: nat :: j < per ==> log[from + j] == Try(j > 0, attempts(i, j))
  }

  lemma ScheduleHasRow<T>(servers: nat, per: nat, attempts: (nat, nat) -> Attempt<T>, i: nat)
    requires i < servers
    ensures RowAt(Schedule(servers, per, attempts), i * per, i, per, attempts)
    ensures (i + 1) * per == i * per + per
  {
    ScheduleLength(servers, per, attempts);
    MulStep(i, per);
    MulMonotone(i + 1, servers, per);
    forall j: nat | j < per
      ensures Schedule(servers, per, attempts)[i * per + j] == Try(j > 0, attempts(i, j))
    {
      ScheduleIsServerMajor(servers, per, attempts, i, j);
    }
  }

  // ------------------------------------------- the retry loop in terms of the answers

  /** The answer, or the lack of one, that ends the loop: an object, not-found, or the end of the context. */
  predicate Stops<T>(j: nat, a: Attempt<T>) {
    || (j > 0 && a.contextEnds.Some?)
    || (a.http.Response? && a.http.status == 200 && a.http.body.Object?)
    || Reports(a.http, NotFound) || Reports(a.http, Canceled) || Reports(a.http, DeadlineExceeded)
  }

  lemma DecisiveExactlyWhen<T>(j: nat, a: Attempt<T>)
    ensures Try(j > 0, a).Decisive() <==> Stops(j, a)
  {
    QueryOutcome(a.http, NotFound);
    QueryOutcome(a.http, Canceled);
    QueryOutcome(a.http, DeadlineExceeded);
  }

  /** None of the first `n` attempts at server `i` stops the loop. */
  ghost predicate Quiet<T>(attempts: (nat, nat) -> Attempt<T>, i: nat, n: nat) {
    forall j: nat :: j < n ==> !Stops(j, attempts(i, j))
  }

  /** Nor does any of the attempts at the first `n` servers, each asked `per` times. */
  ghost predicate AllQuiet<T>(attempts: (nat, nat) -> Attempt<T>, n: nat, per: nat) {
    forall i: nat :: i < n ==> Quiet(attempts, i, per)
  }

  /** Attempt `j` at server `i` is the first one that stops the loop. */
  ghost predicate FirstStop<T>(servers: nat, maxRetries: nat, attempts: (nat, nat) -> Attempt<T>, i: nat, j: nat) {
    && i < servers && j <= maxRetries && Stops(j, attempts(i, j)) && Quiet(attempts, i, j)
    && AllQuiet(attempts, i, maxRetries + 1)
  }

  lemma QuietRow<T>(server: nat, per: nat, attempts: (nat, nat) -> Attempt<T>, j: nat)
    requires j <= per && Quiet(attempts, server, j)
    ensures NoneBefore(Row(server, per, attempts), j)
  {
    forall n | 0 <= n < j ensures !Row(server, per, attempts)[n].Decisive() {
      DecisiveExactlyWhen(n, attempts(server, n));
    }
  }

  lemma NoneBeforeStart<T>(log: seq<Try<T>>)
    ensures NoneBefore(log, 0)
  {
  }

  lemma NoneBeforeLonger<T>(log: seq<Try<T>>, row: seq<Try<T>>, n: nat, m: nat)
    requires NoneBefore(log, n) && NoneBefore(row, m) && (m > 0 ==> n == |log|)
    ensures NoneBefore(log + row, n + m)
  {
  }

  /** If no attempt at the first `n` servers stops the loop, nothing before the next server's row is decisive. */
  lemma {:induction false} QuietServers<T>(n: nat, per: nat, attempts: (nat, nat) -> Attempt<T>)
    requires AllQuiet(attempts, n, per)
    ensures NoneDecisive(Schedule(n, per, attempts))
  {
    hide NoneBefore, Quiet, Row;
    if n == 0 {
      NoneBeforeStart(Schedule(n, per, attempts));
    } else {
      var earlier, row := Schedule(n - 1, per, attempts), Row(n - 1, per, attempts);
      QuietServers(n - 1, per, attempts);
      QuietRow(n - 1, per, attempts, per);
      NoneBeforeLonger(earlier, row, |earlier|, per);
    }
  }

  /** The schedule of more servers goes on where that of fewer ends. */
  lemma {:induction false} NoneBeforeInLonger<T>(i: nat, servers: nat, per: nat, attempts: (nat, nat) -> Attempt<T>,
      n: nat)
    requires i <= servers && NoneBefore(Schedule(i, per, attempts), n)
    ensures NoneBefore(Schedule(servers, per, attempts), n)
  {
    hide NoneBefore;
    if i < servers {
      NoneBeforeInLonger(i, servers - 1, per, attempts, n);
      NoneBeforeStart(Row(servers - 1, per, attempts));
      NoneBeforeLonger(Schedule(servers - 1, per, attempts), Row(servers - 1, per, attempts), n, 0);
    }
  }

  /** If nothing before attempt `j` at server `i` stops the loop, nothing before its position is decisive. */
  lemma NothingBefore<T>(servers: nat, per: nat, attempts: (nat, nat) -> Attempt<T>, i: nat, j: nat)
    requires j <= per && i < servers && Quiet(attempts, i, j) && AllQuiet(attempts, i, per)
    ensures NoneBefore(Schedule(servers, per, attempts), |Schedule(i, per, attempts)| + j)
  {
    hide Quiet, AllQuiet, NoneBefore, Row;
    QuietServers(i, per, attempts);
    QuietRow(i, per, attempts, j);
    var earlier := Schedule(i, per, attempts);
    NoneBeforeLonger(earlier, Row(i, per, attempts), |earlier|, j);
    NoneBeforeInLonger(i + 1, servers, per, attempts, |earlier| + j);
  }

  /** Where attempt `j` at server `i` stands in the schedule. */
  lemma ScheduleAt<T>(servers: nat, per: nat, attempts: (nat, nat) -> Attempt<T>, i: nat, j: nat)
    requires i < servers && j < per
    ensures |Schedule(i, per, attempts)| == i * per
    ensures i * per + j < |Schedule(servers, per, attempts)|
    ensures Schedule(servers, per, attempts)[i * per + j] == Try(j > 0, attempts(i, j))
  {
    ScheduleLength(i, per, attempts);
    ScheduleIsServerMajor(servers, per, attempts, i, j);
  }

  /** What a loop that stops at this attempt hands over. */
  ghost predicate HandsOver<T>(j: nat, a: Attempt<T>, r: Result<T>) {
    if j > 0 && a.contextEnds.Some? then r == Failure(Sentinel(a.contextEnds.value))
    else if a.http.Response? && a.http.status == 200 && a.http.body.Object? then r == Success(a.http.body.value)
    else r.Failure? && forall kind :: r.error.Is(kind) <==> Reports(a.http, kind)
  }

  /**
   The first attempt that stops the loop, in the order of servers and retries, decides: its object is
   the result, or its not-found, or the end of the context. No attempt is made after it.
   */
  lemma FirstStopDecides<T>(servers: nat, maxRetries: nat, attempts: (nat, nat) -> Attempt<T>, i: nat, j: nat)
    requires FirstStop(servers, maxRetries, attempts, i, j)
    ensures var log, a := Schedule(servers, PerServer(maxRetries), attempts), attempts(i, j);
      && HandsOver(j, a, RetryOutcome(log))
      && Tried(log) == i * (maxRetries + 1) + j + if j > 0 && a.contextEnds.Some? then 0 else 1
  {
    hide Schedule, NoneBefore, Quiet, Stops, Reports, DoQuery;
    var per, n, a := maxRetries + 1, i * (maxRetries + 1) + j, attempts(i, j);
    var log := Schedule(servers, per, attempts);
    NothingBefore(servers, per, attempts, i, j);
    ScheduleAt(servers, per, attempts, i, j);
    DecisiveExactlyWhen(j, a);
    FirstDecisiveDecides(log, n);
    StopHandsOver(j, a);
  }

  lemma StopHandsOver<T>(j: nat, a: Attempt<T>)
    requires Stops(j, a)
    ensures HandsOver(j, a, Try(j > 0, a).Verdict())
  {
    forall kind {
      QueryOutcome(a.http, kind);
    }
  }

  /** If no attempt stops the loop, all are made, and "all servers failed" wraps the error of the last one. */
  lemma NothingStopsExhausts<T>(servers: nat, maxRetries: nat, attempts: (nat, nat) -> Attempt<T>)
    requires AllQuiet(attempts, servers, maxRetries + 1)
    ensures var log := Schedule(servers, PerServer(maxRetries), attempts);
      var r := RetryOutcome(log);
      && r.Failure? && Tried(log) == servers * (maxRetries + 1)
      && forall kind :: r.error.Is(kind) <==>
           kind == AllServersFailed || (servers > 0 && Reports(attempts(servers - 1, maxRetries).http, kind))
  {
    var per := maxRetries + 1;
    var log := Schedule(servers, per, attempts);
    ScheduleLength(servers, per, attempts);
    QuietServers(servers, per, attempts);
    NoneDecisiveExhausts(log);
    if servers > 0 {
      MulStep(servers - 1, per);
      ScheduleAt(servers, per, attempts, servers - 1, maxRetries);
      assert Quiet(attempts, servers - 1, per);
      assert !Stops(maxRetries, attempts(servers - 1, maxRetries));
      var h := attempts(servers - 1, maxRetries).http;
      DecisiveExactlyWhen(maxRetries, attempts(servers - 1, maxRetries));
      forall kind ensures RetryOutcome(log).error.Is(kind) <==> kind == AllServersFailed || Reports(h, kind) {
        QueryOutcome(h, kind);
        IsOfWrap2(Sentinel(AllServersFailed), DoQuery(h).error, kind);
      }
    }
  }

  /** The first of `n` attempts at a server that stops the loop, or `n` if none does. */
  lemma {:induction false} FirstInRow<T>(attempts: (nat, nat) -> Attempt<T>, i: nat, n: nat) returns (j: nat)
    ensures j <= n && Quiet(attempts, i, j) && (j < n ==> Stops(j, attempts(i, j)))
  {
    if n == 0 {
      j := 0;
    } else {
      j := FirstInRow(attempts, i, n - 1);
    }
    if j + 1 == n && !Stops(j, attempts(i, j)) {
      j := n;
    }
  }

  /** The first attempt of all that stops the loop; `i` is the number of servers if none does. */
  lemma {:induction false} StopsOrNot<T>(servers: nat, maxRetries: nat, attempts: (nat, nat) -> Attempt<T>)
    returns (i: nat, j: nat)
    ensures if i == servers then AllQuiet(attempts, servers, maxRetries + 1)
      else FirstStop(servers, maxRetries, attempts, i, j)
  {
    hide Quiet, Stops;
    i, j := 0, 0;
    if servers > 0 {
      i, j := StopsOrNot(servers - 1, maxRetries, attempts);
      if i == servers - 1 {
        j := FirstInRow(attempts, servers - 1, maxRetries + 1);
        if j == maxRetries + 1 {
          i := servers;
        }
      }
    }
  }

  lemma StopsOrQuiet<T>(servers: nat, maxRetries: nat, attempts: (nat, nat) -> Attempt<T>, i: nat, j: nat)
    ensures AllQuiet(attempts, servers, maxRetries + 1) ==> !FirstStop(servers, maxRetries, attempts, i, j)
  {
    if AllQuiet(attempts, servers, maxRetries + 1) && i < servers {
      assert Quiet(attempts, i, maxRetries + 1);
    }
  }

  lemma FirstStopIsUnique<T>(servers: nat, maxRetries: nat, attempts: (nat, nat) -> Attempt<T>, i: nat, j: nat,
      i': nat, j': nat)
    requires FirstStop(servers, maxRetries, attempts, i, j) && FirstStop(servers, maxRetries, attempts, i', j')
    ensures i == i' && j == j'
  {
    assert i < i' ==> Quiet(attempts, i, maxRetries + 1);
    assert i' < i ==> Quiet(attempts, i', maxRetries + 1);
  }

  /** Both of the above as one statement, for every attempt at once. */
  lemma OutcomeByAnswers<T>(servers: nat, maxRetries: int, attempts: (nat, nat) -> Attempt<T>)
    ensures var r := RetryOutcome(Schedule(servers, PerServer(maxRetries), attempts));
      && (maxRetries < 0 ==> r == Failure(Sentinel(AllServersFailed)))
      && forall i: nat, j: nat :: maxRetries >= 0 && FirstStop(servers, maxRetries, attempts, i, j) ==>
           HandsOver(j, attempts(i, j), r)
  {
    if maxRetries < 0 {
      NoAttempts(servers, attempts);
    } else {
      forall i: nat, j: nat | FirstStop(servers, maxRetries, attempts, i, j)
        ensures HandsOver(j, attempts(i, j), RetryOutcome(Schedule(servers, PerServer(maxRetries), attempts)))
      {
        FirstStopDecides(servers, maxRetries, attempts, i, j);
      }
    }
  }

  lemma NoAttempts<T>(servers: nat, attempts: (nat, nat) -> Attempt<T>)
    ensures RetryOutcome(Schedule(servers, 0, attempts)) == Failure(Sentinel(AllServersFailed))
  {
    ScheduleLength(servers, 0, attempts);
    NoneDecisiveExhausts(Schedule(servers, 0, attempts));
  }

  // ---------------------------------------------------------------- the loops themselves

  /** The attempts at one server, after `queries0` exchanges with others; a verdict ends them. */
  method AskServer<T>(i: nat, maxRetries: int, attempts: (nat, nat) -> Attempt<T>, ghost log: seq<Try<T>>,
      queries0: nat, waited0: nat, lastErr0: Option<Err>)
    returns (verdict: Option<Result<T>>, queries: nat, waited: nat, lastErr: Option<Err>)
    requires RowAt(log, queries0, i, PerServer(maxRetries), attempts)
    requires NoneBefore(log, queries0) && lastErr0 == ErrorAt(log, queries0)
    ensures verdict.Some? ==>
      && RetryOutcome(log) == verdict.value && Tried(log) == queries && !NoneDecisive(log)
      && waited <= waited0 + ServerBackoff(maxRetries)
    ensures verdict.None? ==>
      && queries == queries0 + PerServer(maxRetries) && NoneBefore(log, queries) && lastErr == ErrorAt(log, queries)
      && waited == waited0 + ServerBackoff(maxRetries)
  {
    ghost var per := PerServer(maxRetries);
    queries, waited, lastErr := queries0, waited0, lastErr0;
    var attempt := 0;
    while attempt <= maxRetries
      invariant 0 <= attempt <= per
      invariant queries == queries0 + attempt
      invariant NoneBefore(log, queries)
      invariant lastErr == ErrorAt(log, queries)
      invariant waited == waited0 + ServerBackoff(attempt - 1)
      decreases per - attempt
    {
      ServerBackoffGrows(attempt, maxRetries);
      var a := attempts(i, attempt);
      ghost var t := Try(attempt > 0, a);
      assert log[queries0 + attempt] == t;
      if attempt > 0 {
        waited := waited + CalculateBackoff(attempt);
        if a.contextEnds.Some? {
          DecisiveTry(log, queries, t);
          return Some(Failure(Sentinel(a.contextEnds.value))), queries, waited, lastErr;
        }
      }
      var result := DoQuery(a.http);
      if result.Success? {
        DecisiveTry(log, queries, t);
        return Some(result), queries + 1, waited, lastErr;
      }
      if result.error.Is(NotFound) || result.error.Is(Canceled) || result.error.Is(DeadlineExceeded) {
        DecisiveTry(log, queries, t);
        return Some(Failure(result.error)), queries + 1, waited, lastErr;
      }
      IndecisiveTry(log, queries, t);
      lastErr, queries := Some(result.error), queries + 1;
      attempt := attempt + 1;
    }
    verdict := None;
  }

  /**
   Asks the servers in turn, each up to `maxRetries` times again, until a verdict is decisive.
   `queries` counts the exchanges made, `waited` the milliseconds of backoff asked for.
   */
  method QueryWithRetry<T>(servers: nat, maxRetries: int, attempts: (nat, nat) -> Attempt<T>)
    returns (r: Result<T>, queries: nat, waited: nat)
    ensures r == RetryOutcome(Schedule(servers, PerServer(maxRetries), attempts))
    ensures maxRetries < 0 ==> r == Failure(Sentinel(AllServersFailed))
    ensures forall i: nat, j: nat :: maxRetries >= 0 && FirstStop(servers, maxRetries, attempts, i, j) ==>
      HandsOver(j, attempts(i, j), r)
    ensures queries == Tried(Schedule(servers, PerServer(maxRetries), attempts))
    ensures waited <= servers * ServerBackoff(maxRetries)
    ensures NoneDecisive(Schedule(servers, PerServer(maxRetries), attempts)) ==>
      queries == servers * PerServer(maxRetries) && waited == servers * ServerBackoff(maxRetries)
  {
    ghost var per := PerServer(maxRetries);
    ghost var log := Schedule(servers, per, attempts);
    OutcomeByAnswers(servers, maxRetries, attempts);
    ScheduleLength(servers, per, attempts);
    var lastErr: Option<Err> := None;
    queries, waited := 0, 0;
    for i := 0 to servers
      invariant queries == i * per
      invariant NoneBefore(log, queries)
      invariant lastErr == ErrorAt(log, queries)
      invariant waited == i * ServerBackoff(maxRetries)
    {
      ScheduleHasRow(servers, per, attempts, i);
      MulStep(i, ServerBackoff(maxRetries));
      MulMonotone(i + 1, servers, ServerBackoff(maxRetries));
      var verdict;
      verdict, queries, waited, lastErr := AskServer(i, maxRetries, attempts, log, queries, waited, lastErr);
      if verdict.Some? {
        return verdict.value, queries, waited;
      }
    }
    NoneDecisiveExhausts(log);
    r := Failure(Exhausted(lastErr));
  }
}
