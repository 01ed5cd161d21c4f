/**
 Batch lookup: one worker per query, a semaphore that bounds how many look something up at once, and
 a deadline that may pass at any moment. Spawning, taking and returning a semaphore slot, the
 deadline check, writing a result and leaving the wait group are single steps.
 */
module Batch {
  import opened CacheTypes
  import opened LookupErrors
  import Text
  import opened Progress

  datatype Query = Query(kind: string, value: string, server: string)

  datatype QueryResult = QueryResult(kind: string, value: string, data: Bytes, error: string, cached: bool)

  /** What looking a query up comes to; `allowed` is the verdict on an entity query's server. */
  datatype Lookup = Lookup(allowed: bool, found: Found)

  datatype Found = Data(data: Bytes, cached: bool) | Failed(err: Err)

  const TIMEOUT := "batch timeout exceeded"

  function SanitizeBatchError(e: Err): (r: string)
    ensures r != ""
  {
    if e.Is(NotFound) then "not found"
    else if e.Is(RateLimited) then "rate limited"
    else if e.Is(BootstrapNotFound) then "no RDAP server found"
    else if e.Is(BootstrapInvalidInput) then "invalid input"
    else if e.Is(DeadlineExceeded) then "timeout"
    else "query failed"
  }

  function ProcessBatchQuery(q: Query, l: Lookup): QueryResult {
    var kind := Text.ToLower(q.kind);
    var blank := QueryResult(q.kind, q.value, [], "", false);
    if kind !in {"domain", "ip", "asn", "entity"} then blank.(error := "unknown query type")
    else if kind == "entity" && q.server == "" then blank.(error := "server URL required for entity queries")
    else if kind == "entity" && !l.allowed then blank.(error := "server URL not in allowed list")
    else
      match l.found
      case Failed(e) => blank.(error := SanitizeBatchError(e))
      case Data(data, cached) => blank.(data := data, cached := cached)
  }

  function TimedOut(q: Query): QueryResult {
    QueryResult(q.kind, q.value, [], TIMEOUT, false)
  }

  datatype Phase = Unspawned | Acquiring | Checking | Processing | Releasing | Leaving | Gone {
    /** The worker holds a semaphore slot. */
    predicate Holds() {
      Checking? || Processing? || Releasing?
    }

    predicate Wrote() {
      Releasing? || Leaving? || Gone?
    }
  }

  /** How many steps a worker in this phase can still take. */
  function Rank(p: Phase): nat {
    match p
    case Unspawned => 6
    case Acquiring => 5
    case Checking => 4
    case Processing => 3
    case Releasing => 2
    case Leaving => 1
    case Gone => 0
  }

  /**
   `slots` is how many semaphore slots are taken, `pending` the wait group's counter, `writes` all
   writes to each result slot.
   */
  datatype State = State(
    workers: seq<Phase>, spawned: nat, slots: nat, pending: int,
    expired: bool, writes: seq<seq<QueryResult>>, finished: bool)

  datatype Event =
    | Spawn
    | Acquire(w: nat)
    | GiveUp(w: nat)
    | Check(w: nat)
    | Process(w: nat, lookup: Lookup)
    | Release(w: nat)
    | Leave(w: nat)
    | WaitOver
    | Expire

  function Start(n: nat): State {
    State(seq(n, _ => Unspawned), 0, 0, 0, false, seq(n, _ => []), false)
  }

  predicate Enabled(concurrency: nat, s: State, ev: Event) {
    match ev
    case Spawn => s.spawned < |s.workers| && s.workers[s.spawned].Unspawned?
    case Acquire(w) => w < |s.workers| && s.workers[w].Acquiring? && s.slots < concurrency
    case GiveUp(w) => w < |s.workers| && s.workers[w].Acquiring? && s.expired
    case Check(w) => w < |s.workers| && s.workers[w].Checking?
    case Process(w, _) => w < |s.workers| && s.workers[w].Processing?
    case Release(w) => w < |s.workers| && s.workers[w].Releasing? && s.slots > 0
    case Leave(w) => w < |s.workers| && s.workers[w].Leaving?
    case WaitOver => s.spawned == |s.workers| && s.pending == 0 && !s.finished
    case Expire => true
  }

  function Move(s: State, w: nat, p: Phase): State
    requires w < |s.workers|
  {
    s.(workers := s.workers[w := p])
  }

  function Write(s: State, w: nat, r: QueryResult): State {
    if w < |s.writes| then s.(writes := s.writes[w := s.writes[w] + [r]]) else s
  }

  function Next(queries: seq<Query>, s: State, concurrency: nat, ev: Event): State
    requires |queries| == |s.workers| && Enabled(concurrency, s, ev)
  {
    match ev
    case Spawn => Move(s, s.spawned, Acquiring).(spawned := s.spawned + 1, pending := s.pending + 1)
    case Acquire(w) => Move(s, w, Checking).(slots := s.slots + 1)
    case GiveUp(w) => Write(Move(s, w, Leaving), w, TimedOut(queries[w]))
    case Check(w) =>
      if s.expired then Write(Move(s, w, Releasing), w, TimedOut(queries[w])) else Move(s, w, Processing)
    case Process(w, l) => Write(Move(s, w, Releasing), w, ProcessBatchQuery(queries[w], l))
    case Release(w) => Move(s, w, Leaving).(slots := s.slots - 1)
    case Leave(w) => Move(s, w, Gone).(pending := s.pending - 1)
    case WaitOver => s.(finished := true)
    case Expire => s.(expired := true)
  }

  // ------------------------------------------------------------------ invariant

  function Holders(ws: seq<Phase>): nat {
    if ws == [] then 0 else (if ws[0].Holds() then 1 else 0) + Holders(ws[1..])
  }

  function Present(ws: seq<Phase>): nat {
    if ws == [] then 0 else (if ws[0].Unspawned? || ws[0].Gone? then 0 else 1) + Present(ws[1..])
  }

  lemma {:induction false} CountsOfUpdate(ws: seq<Phase>, w: nat, p: Phase)
    requires w < |ws|
    ensures Holders(ws[w := p]) == Holders(ws) - (if ws[w].Holds() then 1 else 0) + (if p.Holds() then 1 else 0)
    ensures Present(ws[w := p]) ==
      Present(ws) - (if ws[w].Unspawned? || ws[w].Gone? then 0 else 1) + (if p.Unspawned? || p.Gone? then 0 else 1)
  {
    if w == 0 {
      assert ws[w := p][1..] == ws[1..];
    } else {
      assert ws[w := p][1..] == ws[1..][w - 1 := p];
      CountsOfUpdate(ws[1..], w - 1, p);
    }
  }

  lemma {:induction false} HolderExists(ws: seq<Phase>) returns (w: nat)
    requires Holders(ws) > 0
    ensures w < |ws| && ws[w].Holds()
  {
    if ws[0].Holds() {
      w := 0;
    } else {
      w := HolderExists(ws[1..]);
      w := w + 1;
    }
  }

  lemma {:induction false} NobodyPresent(ws: seq<Phase>, w: nat)
    requires Present(ws) == 0 && w < |ws|
    ensures ws[w].Unspawned? || ws[w].Gone?
  {
    if w > 0 {
      NobodyPresent(ws[1..], w - 1);
    }
  }

  lemma {:induction false} CountsAtStart(n: nat)
    ensures Holders(seq(n, _ => Unspawned)) == 0 && Present(seq(n, _ => Unspawned)) == 0
  {
    if n > 0 {
      assert seq(n, _ => Unspawned)[1..] == seq(n - 1, _ => Unspawned);
      CountsAtStart(n - 1);
    }
  }

  /** A result says which query it answers, and an error is never a cache hit. */
  predicate Answers(q: Query, r: QueryResult) {
    r.kind == q.kind && r.value == q.value && (r.error != "" ==> !r.cached)
  }

  ghost predicate SlotOk(q: Query, p: Phase, ws: seq<QueryResult>) {
    |ws| == (if p.Wrote() then 1 else 0) && (ws != [] ==> Answers(q, ws[0]))
  }

  ghost predicate SlotsOk(queries: seq<Query>, s: State) {
    && |s.workers| == |queries| == |s.writes|
    && forall w :: 0 <= w < |queries| ==> SlotOk(queries[w], s.workers[w], s.writes[w])
  }

  ghost predicate Accounted(concurrency: nat, s: State) {
    && s.slots == Holders(s.workers) && s.slots <= concurrency
    && s.pending == Present(s.workers)
    && s.spawned <= |s.workers|
    && (forall w :: 0 <= w < |s.workers| ==> (s.workers[w].Unspawned? <==> s.spawned <= w))
    && (s.finished ==> s.spawned == |s.workers| && s.pending == 0)
  }

  /** The event is a step of one worker, this one. */
  predicate IsWorkers(s: State, ev: Event, w: nat) {
    match ev
    case Spawn => w == s.spawned
    case WaitOver => false
    case Expire => false
    case _ => w == ev.w
  }

  /** From `s` to `s'` only worker `w` moves, to a phase of lower rank. */
  ghost predicate MovesDown(s: State, s': State, w: nat) {
    && w < |s.workers| == |s'.workers| && s'.workers == s.workers[w := s'.workers[w]]
    && Rank(s'.workers[w]) < Rank(s.workers[w]) && s'.finished == s.finished
  }

  lemma WorkerMovesDown(queries: seq<Query>, concurrency: nat, s: State, ev: Event, w: nat)
    requires |queries| == |s.workers| && Enabled(concurrency, s, ev) && IsWorkers(s, ev, w)
    ensures MovesDown(s, Next(queries, s, concurrency, ev), w)
  {
  }

  /** Only result slot `w` is written, if any, and it fits what its worker has done. */
  ghost predicate WritesOwn(queries: seq<Query>, s: State, s': State, w: nat) {
    && w < |queries| == |s.workers| == |s'.workers| == |s.writes| == |s'.writes|
    && s'.workers == s.workers[w := s'.workers[w]] && s'.writes == s.writes[w := s'.writes[w]]
    && SlotOk(queries[w], s'.workers[w], s'.writes[w])
  }

  lemma WorkerWritesOwn(queries: seq<Query>, concurrency: nat, s: State, ev: Event, w: nat)
    requires |queries| == |s.workers| == |s.writes| && Enabled(concurrency, s, ev) && IsWorkers(s, ev, w)
    requires w < |queries| && SlotOk(queries[w], s.workers[w], s.writes[w])
    ensures WritesOwn(queries, s, Next(queries, s, concurrency, ev), w)
  {
  }

  lemma StepKeepsSlots(queries: seq<Query>, concurrency: nat, s: State, ev: Event)
    requires SlotsOk(queries, s) && Enabled(concurrency, s, ev)
    ensures SlotsOk(queries, Next(queries, s, concurrency, ev))
  {
    if !ev.WaitOver? && !ev.Expire? {
      var w := if ev.Spawn? then s.spawned else ev.w;
      WorkerWritesOwn(queries, concurrency, s, ev, w);
    }
  }

  /** Worker `w` moves on, and the two counters follow it. */
  ghost predicate CountsFollow(concurrency: nat, s: State, s': State, w: nat) {
    && MovesDown(s, s', w) && !s'.workers[w].Unspawned?
    && s'.slots == s.slots - (if s.workers[w].Holds() then 1 else 0) + (if s'.workers[w].Holds() then 1 else 0)
    && s'.slots <= concurrency
    && s'.pending == s.pending - (if s.workers[w].Unspawned? then 0 else 1) + (if s'.workers[w].Gone? then 0 else 1)
    && (if s.workers[w].Unspawned? then w == s.spawned && s'.spawned == s.spawned + 1 else s'.spawned == s.spawned)
  }

  lemma CountersFollow(queries: seq<Query>, concurrency: nat, s: State, ev: Event, w: nat)
    requires |queries| == |s.workers| && Enabled(concurrency, s, ev) && IsWorkers(s, ev, w) && s.slots <= concurrency
    ensures CountsFollow(concurrency, s, Next(queries, s, concurrency, ev), w)
  {
  }

  lemma FollowingKeepsAccounts(concurrency: nat, s: State, s': State, w: nat)
    requires Accounted(concurrency, s) && CountsFollow(concurrency, s, s', w)
    ensures Accounted(concurrency, s')
  {
    CountsOfUpdate(s.workers, w, s'.workers[w]);
  }

  lemma StepKeepsAccounts(queries: seq<Query>, concurrency: nat, s: State, ev: Event)
    requires |queries| == |s.workers| && Accounted(concurrency, s) && Enabled(concurrency, s, ev)
    ensures Accounted(concurrency, Next(queries, s, concurrency, ev))
  {
    if !ev.WaitOver? && !ev.Expire? {
      var w := if ev.Spawn? then s.spawned else ev.w;
      CountersFollow(queries, concurrency, s, ev, w);
      FollowingKeepsAccounts(concurrency, s, Next(queries, s, concurrency, ev), w);
    }
  }

  ghost predicate IsRun(queries: seq<Query>, concurrency: nat, trace: seq<Event>)
    decreases |trace|, 0
  {
    trace == [] ||
    (IsRun(queries, concurrency, trace[..|trace| - 1]) &&
     Enabled(concurrency, Run(queries, concurrency, trace[..|trace| - 1]), trace[|trace| - 1]))
  }

  ghost function Run(queries: seq<Query>, concurrency: nat, trace: seq<Event>): (s: State)
    requires IsRun(queries, concurrency, trace)
    ensures |s.workers| == |queries|
    decreases |trace|, 1
  {
    if trace == [] then Start(|queries|)
    else Next(queries, Run(queries, concurrency, trace[..|trace| - 1]), concurrency, trace[|trace| - 1])
  }

  lemma {:induction false} RunsAreAccounted(queries: seq<Query>, concurrency: nat, trace: seq<Event>)
    requires IsRun(queries, concurrency, trace)
    ensures Accounted(concurrency, Run(queries, concurrency, trace))
    ensures SlotsOk(queries, Run(queries, concurrency, trace))
  {
    if trace == [] {
      CountsAtStart(|queries|);
    } else {
      var before := trace[..|trace| - 1];
      RunsAreAccounted(queries, concurrency, before);
      StepKeepsSlots(queries, concurrency, Run(queries, concurrency, before), trace[|trace| - 1]);
      StepKeepsAccounts(queries, concurrency, Run(queries, concurrency, before), trace[|trace| - 1]);
    }
  }

  /** At no moment do more workers than the configured concurrency hold a slot. */
  lemma HoldersBounded(queries: seq<Query>, concurrency: nat, trace: seq<Event>)
    requires IsRun(queries, concurrency, trace)
    ensures Holders(Run(queries, concurrency, trace).workers) <= concurrency
  {
    RunsAreAccounted(queries, concurrency, trace);
  }

  /** Event `ev` ends the lookup of query `w` with this result. */
  predicate Processes(queries: seq<Query>, ev: Event, w: nat, r: QueryResult) {
    w < |queries| && ev.Process? && ev.w == w && r == ProcessBatchQuery(queries[w], ev.lookup)
  }

  /** The result is the outcome of looking query `w` up in this run, or the timeout after the deadline has passed. */
  ghost predicate Produced(queries: seq<Query>, trace: seq<Event>, w: nat, r: QueryResult)
    requires w < |queries|
  {
    || (exists i :: 0 <= i < |trace| && Processes(queries, trace[i], w, r))
    || (r == TimedOut(queries[w]) && exists i :: 0 <= i < |trace| && trace[i].Expire?)
  }

  ghost predicate AllProduced(queries: seq<Query>, trace: seq<Event>, s: State) {
    && |s.workers| == |queries| == |s.writes|
    && (s.expired ==> exists i :: 0 <= i < |trace| && trace[i].Expire?)
    && forall w, n :: 0 <= w < |queries| && 0 <= n < |s.writes[w]| ==> Produced(queries, trace, w, s.writes[w][n])
  }

  lemma ProducedSurvives(queries: seq<Query>, trace: seq<Event>, ev: Event, s: State)
    requires AllProduced(queries, trace, s)
    ensures AllProduced(queries, trace + [ev], s)
  {
    var longer := trace + [ev];
    if i :| 0 <= i < |trace| && trace[i].Expire? {
      assert longer[i].Expire?;
    }
    forall w, n | 0 <= w < |queries| && 0 <= n < |s.writes[w]|
      ensures Produced(queries, longer, w, s.writes[w][n])
    {
      var r := s.writes[w][n];
      if i :| 0 <= i < |trace| && Processes(queries, trace[i], w, r) {
        assert Processes(queries, longer[i], w, r);
      }
    }
  }

  lemma StepProduces(queries: seq<Query>, concurrency: nat, trace: seq<Event>, s: State, ev: Event)
    requires AllProduced(queries, trace, s) && Enabled(concurrency, s, ev) && trace != [] && trace[|trace| - 1] == ev
    ensures AllProduced(queries, trace, Next(queries, s, concurrency, ev))
  {
    var last := |trace| - 1;
    if ev.Process? {
      assert Processes(queries, trace[last], ev.w, ProcessBatchQuery(queries[ev.w], ev.lookup));
    } else if ev.Expire? {
      assert trace[last].Expire?;
    }
  }

  lemma {:induction false} WritesAreProduced(queries: seq<Query>, concurrency: nat, trace: seq<Event>)
    requires IsRun(queries, concurrency, trace)
    ensures AllProduced(queries, trace, Run(queries, concurrency, trace))
  {
    if trace != [] {
      var before, last := trace[..|trace| - 1], trace[|trace| - 1];
      WritesAreProduced(queries, concurrency, before);
      ProducedSurvives(queries, before, last, Run(queries, concurrency, before));
      assert before + [last] == trace;
      StepProduces(queries, concurrency, trace, Run(queries, concurrency, before), last);
    }
  }

  /**
   When the wait is over every result slot has been written exactly once, with its own query's type and
   value: the outcome of looking that query up, or the timeout if the deadline passed.
   */
  lemma FinishedWritesEachSlotOnce(queries: seq<Query>, concurrency: nat, trace: seq<Event>, w: nat)
    requires IsRun(queries, concurrency, trace) && Run(queries, concurrency, trace).finished && w < |queries|
    ensures var s := Run(queries, concurrency, trace);
      && |s.writes| == |queries| && |s.writes[w]| == 1
      && Answers(queries[w], s.writes[w][0]) && Produced(queries, trace, w, s.writes[w][0])
  {
    RunsAreAccounted(queries, concurrency, trace);
    WritesAreProduced(queries, concurrency, trace);
    var s := Run(queries, concurrency, trace);
    NobodyPresent(s.workers, w);
    assert SlotOk(queries[w], s.workers[w], s.writes[w]);
  }

  /** A query of a known type is looked up; an entity query only with an allowed server. */
  predicate LooksUp(q: Query, allowed: bool) {
    var kind := Text.ToLower(q.kind);
    kind == "domain" || kind == "ip" || kind == "asn" || (kind == "entity" && q.server != "" && allowed)
  }

  /** The text for an error: the first of these kinds that it is, in this order. */
  predicate TellsError(e: Err, text: string) {
    && (text == "not found" <==> e.Is(NotFound))
    && (text == "rate limited" <==> e.Is(RateLimited) && !e.Is(NotFound))
    && (text == "no RDAP server found" <==> e.Is(BootstrapNotFound) && !e.Is(NotFound) && !e.Is(RateLimited))
    && (text == "invalid input" <==>
          e.Is(BootstrapInvalidInput) && !e.Is(NotFound) && !e.Is(RateLimited) && !e.Is(BootstrapNotFound))
    && text in ["not found", "rate limited", "no RDAP server found", "invalid input", "timeout", "query failed"]
    && (text == "timeout" ==> e.Is(DeadlineExceeded)) && (text == "query failed" ==> !e.Is(DeadlineExceeded))
  }

  /** The text for a query that is not looked up. */
  predicate TellsRefusal(q: Query, text: string) {
    text ==
      if Text.ToLower(q.kind) != "entity" then "unknown query type"
      else if q.server == "" then "server URL required for entity queries"
      else "server URL not in allowed list"
  }

  /** The result of looking a query up: its data, or a text that says what went wrong. */
  predicate Tells(q: Query, l: Lookup, r: QueryResult) {
    && r.kind == q.kind && r.value == q.value
    && if LooksUp(q, l.allowed) && l.found.Data? then
         r.data == l.found.data && r.cached == l.found.cached && r.error == ""
       else
         r.data == [] && !r.cached &&
         if LooksUp(q, l.allowed) then TellsError(l.found.err, r.error) else TellsRefusal(q, r.error)
  }

  lemma TextTellsError(e: Err)
    ensures TellsError(e, SanitizeBatchError(e))
  {
  }

  lemma LookupTells(q: Query, l: Lookup)
    ensures Tells(q, l, ProcessBatchQuery(q, l))
  {
    hide TellsError, SanitizeBatchError;
    if l.found.Failed? {
      TextTellsError(l.found.err);
    }
  }

  /**
   What a client reads when the batch is over: in each slot either what looking its query up gave, data
   and cache flag or the text for its error, or, if the deadline passed, that it timed out.
   */
  lemma FinishedResultsTell(queries: seq<Query>, concurrency: nat, trace: seq<Event>, w: nat)
    requires IsRun(queries, concurrency, trace) && Run(queries, concurrency, trace).finished && w < |queries|
    ensures var s, q := Run(queries, concurrency, trace), queries[w];
      && |s.writes| == |queries| && |s.writes[w]| == 1
      && (|| (exists l :: Process(w, l) in trace && Tells(q, l, s.writes[w][0]))
          || (Expire in trace && s.writes[w][0] == QueryResult(q.kind, q.value, [], "batch timeout exceeded", false)))
  {
    FinishedWritesEachSlotOnce(queries, concurrency, trace, w);
    var r := Run(queries, concurrency, trace).writes[w][0];
    if i :| 0 <= i < |trace| && Processes(queries, trace[i], w, r) {
      LookupTells(queries[w], trace[i].lookup);
      assert trace[i] == Process(w, trace[i].lookup);
    }
  }

  // ------------------------------------------------------------------- progress

  /** A step some goroutine of the batch can take now, other than the deadline passing. */
  ghost predicate CanMove(concurrency: nat, s: State) {
    exists ev: Event :: !ev.Expire? && Enabled(concurrency, s, ev)
  }

  lemma HolderCanMove(concurrency: nat, s: State)
    requires Accounted(concurrency, s) && s.slots > 0
    ensures CanMove(concurrency, s)
  {
    var w := HolderExists(s.workers);
    if s.workers[w].Checking? {
      assert Enabled(concurrency, s, Check(w));
    } else if s.workers[w].Processing? {
      assert Enabled(concurrency, s, Process(w, Lookup(false, Data([], false))));
    } else {
      assert Enabled(concurrency, s, Release(w));
    }
  }

  lemma PresentExists(ws: seq<Phase>) returns (w: nat)
    requires Present(ws) > 0
    ensures w < |ws| && !ws[w].Unspawned? && !ws[w].Gone?
  {
    if !ws[0].Unspawned? && !ws[0].Gone? {
      w := 0;
    } else {
      w := PresentExists(ws[1..]);
      w := w + 1;
    }
  }

  /**
   No batch is ever stuck before it finishes, as long as there is a slot to take or the deadline has
   passed; without either, the waiting workers can only wait for the deadline.
   */
  lemma NeverStuck(queries: seq<Query>, concurrency: nat, trace: seq<Event>)
    requires IsRun(queries, concurrency, trace) && !Run(queries, concurrency, trace).finished
    requires concurrency > 0 || Run(queries, concurrency, trace).expired
    ensures CanMove(concurrency, Run(queries, concurrency, trace))
  {
    RunsAreAccounted(queries, concurrency, trace);
    var s := Run(queries, concurrency, trace);
    if s.spawned < |s.workers| {
      assert Enabled(concurrency, s, Spawn);
    } else if s.pending == 0 {
      assert Enabled(concurrency, s, WaitOver);
    } else if s.slots > 0 {
      HolderCanMove(concurrency, s);
    } else {
      var w := PresentExists(s.workers);
      AbsentFromSlots(s.workers, w);
      if s.workers[w].Leaving? {
        assert Enabled(concurrency, s, Leave(w));
      } else if s.expired {
        assert Enabled(concurrency, s, GiveUp(w));
      } else {
        assert Enabled(concurrency, s, Acquire(w));
      }
    }
  }

  lemma {:induction false} AbsentFromSlots(ws: seq<Phase>, w: nat)
    requires Holders(ws) == 0 && w < |ws|
    ensures !ws[w].Holds()
  {
    if w > 0 {
      AbsentFromSlots(ws[1..], w - 1);
    }
  }

  /** What the batch still has to do; zero exactly when it has finished. */
  function Remaining(s: State): nat {
    Work(s.workers, Rank) + if s.finished then 0 else 1
  }

  /** Every step of the batch itself brings it closer to its end. */
  lemma StepsMakeProgress(queries: seq<Query>, concurrency: nat, s: State, ev: Event)
    requires |queries| == |s.workers| && Enabled(concurrency, s, ev)
    ensures var s' := Next(queries, s, concurrency, ev);
      if ev.Expire? then Remaining(s') == Remaining(s) else Remaining(s') < Remaining(s)
  {
    if !ev.WaitOver? && !ev.Expire? {
      var w := if ev.Spawn? then s.spawned else ev.w;
      WorkerMovesDown(queries, concurrency, s, ev, w);
      MovingDownIsProgress(s, Next(queries, s, concurrency, ev), w);
    }
  }

  lemma MovingDownIsProgress(s: State, s': State, w: nat)
    requires MovesDown(s, s', w)
    ensures Remaining(s') < Remaining(s)
  {
    WorkOfUpdate(s.workers, Rank, w, s'.workers[w]);
  }

  /** The steps of the batch itself in a run; the passing of the deadline is none. */
  function OwnSteps(trace: seq<Event>): nat {
    if trace == [] then 0
    else OwnSteps(trace[..|trace| - 1]) + if trace[|trace| - 1].Expire? then 0 else 1
  }

  lemma {:induction false} WorkAtStart(n: nat)
    ensures Work(seq(n, _ => Unspawned), Rank) == 6 * n
  {
    if n > 0 {
      assert seq(n, _ => Unspawned)[1..] == seq(n - 1, _ => Unspawned);
      WorkAtStart(n - 1);
    }
  }

  /** No batch takes more than six steps per query and one to end, whatever the lookups do. */
  lemma {:induction false} RunsAreBounded(queries: seq<Query>, concurrency: nat, trace: seq<Event>)
    requires IsRun(queries, concurrency, trace)
    ensures OwnSteps(trace) + Remaining(Run(queries, concurrency, trace)) <= 6 * |queries| + 1
  {
    if trace == [] {
      WorkAtStart(|queries|);
    } else {
      var before := trace[..|trace| - 1];
      RunsAreBounded(queries, concurrency, before);
      StepsMakeProgress(queries, concurrency, Run(queries, concurrency, before), trace[|trace| - 1]);
    }
  }

  ghost predicate OnlyTimeouts(queries: seq<Query>, s: State) {
    && |s.workers| == |queries| == |s.writes|
    && forall w :: 0 <= w < |queries| ==>
         !s.workers[w].Holds() && (forall r :: r in s.writes[w] ==> r == TimedOut(queries[w]))
  }

  lemma StepKeepsOnlyTimeouts(queries: seq<Query>, s: State, ev: Event)
    requires OnlyTimeouts(queries, s) && Enabled(0, s, ev)
    ensures OnlyTimeouts(queries, Next(queries, s, 0, ev))
  {
  }

  /** With no slots at all nothing is looked up: every result that is ever written is the timeout. */
  lemma {:induction false} NoSlotsOnlyTimeouts(queries: seq<Query>, trace: seq<Event>)
    requires IsRun(queries, 0, trace)
    ensures OnlyTimeouts(queries, Run(queries, 0, trace))
  {
    if trace != [] {
      NoSlotsOnlyTimeouts(queries, trace[..|trace| - 1]);
      StepKeepsOnlyTimeouts(queries, Run(queries, 0, trace[..|trace| - 1]), trace[|trace| - 1]);
    }
  }

  // ----------------------------------------------------------------- statistics

  datatype Stats = Stats(total: nat, success: nat, errors: nat, cacheHits: nat)

  function Succeeded(rs: seq<QueryResult>): nat {
    if rs == [] then 0 else Succeeded(rs[..|rs| - 1]) + if rs[|rs| - 1].error == "" then 1 else 0
  }

  function Cached(rs: seq<QueryResult>): nat {
    if rs == [] then 0 else Cached(rs[..|rs| - 1]) + if rs[|rs| - 1].cached then 1 else 0
  }

  ghost function Successes(rs: seq<QueryResult>): set<int> {
    set i | 0 <= i < |rs| && rs[i].error == ""
  }

  ghost function Hits(rs: seq<QueryResult>): set<int> {
    set i | 0 <= i < |rs| && rs[i].cached
  }

  lemma OneMoreSuccess(rs: seq<QueryResult>)
    requires rs != []
    ensures var n := |rs| - 1; |Successes(rs)| == |Successes(rs[..n])| + if rs[n].error == "" then 1 else 0
  {
    var n := |rs| - 1;
    assert Successes(rs) == if rs[n].error == "" then Successes(rs[..n]) + {n} else Successes(rs[..n]);
  }

  lemma OneMoreHit(rs: seq<QueryResult>)
    requires rs != []
    ensures var n := |rs| - 1; |Hits(rs)| == |Hits(rs[..n])| + if rs[n].cached then 1 else 0
  {
    var n := |rs| - 1;
    assert Hits(rs) == if rs[n].cached then Hits(rs[..n]) + {n} else Hits(rs[..n]);
  }

  /** What the two counts count. */
  lemma {:induction false} CountsAreSizes(rs: seq<QueryResult>)
    ensures Succeeded(rs) == |Successes(rs)| && Cached(rs) == |Hits(rs)|
  {
    if rs != [] {
      CountsAreSizes(rs[..|rs| - 1]);
      hide Successes, Hits;
      OneMoreSuccess(rs);
      OneMoreHit(rs);
    }
  }

  lemma {:induction false} CachedAreSuccesses(queries: seq<Query>, rs: seq<QueryResult>)
    requires |queries| == |rs| && forall i :: 0 <= i < |rs| ==> Answers(queries[i], rs[i])
    ensures Cached(rs) <= Succeeded(rs) <= |rs|
  {
    if rs != [] {
      CachedAreSuccesses(queries[..|rs| - 1], rs[..|rs| - 1]);
    }
  }

  method CalculateStats(results: seq<QueryResult>) returns (stats: Stats)
    ensures stats.total == |results| == stats.success + stats.errors
    ensures stats.success == Succeeded(results) == |Successes(results)|
    ensures stats.cacheHits == Cached(results) == |Hits(results)|
  {
    CountsAreSizes(results);
    var success, errors, hits := 0, 0, 0;
    for i := 0 to |results|
      invariant success == Succeeded(results[..i]) && errors == i - success && hits == Cached(results[..i])
    {
      assert results[..i + 1][..i] == results[..i];
      if results[i].error == "" {
        success := success + 1;
      } else {
        errors := errors + 1;
      }
      if results[i].cached {
        hits := hits + 1;
      }
    }
    assert results[..|results|] == results;
    stats := Stats(|results|, success, errors, hits);
  }

  /** The result of every slot of a finished batch. */
  ghost function Results(s: State): seq<QueryResult>
    requires forall w :: 0 <= w < |s.writes| ==> |s.writes[w]| == 1
  {
    seq(|s.writes|, w requires 0 <= w < |s.writes| => s.writes[w][0])
  }

  /** The statistics of a finished batch add up, and every cache hit is a success. */
  lemma FinishedStatsAddUp(queries: seq<Query>, concurrency: nat, trace: seq<Event>)
    requires IsRun(queries, concurrency, trace) && Run(queries, concurrency, trace).finished
    ensures var s := Run(queries, concurrency, trace);
      && (forall w :: 0 <= w < |s.writes| ==> |s.writes[w]| == 1)
      && |Results(s)| == |queries|
      && Cached(Results(s)) <= Succeeded(Results(s)) <= |queries|
  {
    RunsAreAccounted(queries, concurrency, trace);
    var s := Run(queries, concurrency, trace);
    forall w | 0 <= w < |queries|
      ensures |s.writes[w]| == 1 && Answers(queries[w], s.writes[w][0])
    {
      FinishedWritesEachSlotOnce(queries, concurrency, trace, w);
    }
    CachedAreSuccesses(queries, Results(s));
  }
}
