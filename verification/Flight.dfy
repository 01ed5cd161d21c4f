/**
 Request coalescing over the two tiers, as interleaved steps of any number of callers.

 Each read of a tier, each write of a tier, joining or opening a flight, the return of a fetch and
 the end of a flight is one step. Between any two of them other callers move, the clock advances,
 either tier loses entries, second-tier accesses fail, and callers are cancelled.
 */
module Flight {
  import opened CacheTypes
  import opened TierModel
  import opened LookupErrors
  import opened Progress

  /** `GetOrFetch` and `GetOrFetchWithNegative`; both share one group of flights. */
  datatype Api = Plain | WithNegative

  datatype Call = Call(key: Key, api: Api)

  datatype Setup = Setup(cfg: Config, calls: seq<Call>, initial: Tiers)

  datatype Fetched = Got(value: Bytes) | Failed(err: Err)

  /** What a flight or a cache hit hands to its caller. */
  datatype Reply = Value(value: Bytes) | Fail(err: Err)

  datatype Phase =
    | Probe1
    | Probe2
    | ProbePromote(item: Item)
    | Enter
    | Wait(leader: nat)
    | Check1
    | Check2
    | CheckPromote(item: Item)
    | Fetching
    | Store1(item: Item, reply: Reply)
    | Store2(item: Item, reply: Reply)
    | Land(reply: Reply)
    | Done(reply: Reply, cached: bool)
  {
    /** The caller leads a flight that has not ended. */
    predicate InFlight() {
      Check1? || Check2? || CheckPromote? || Fetching? || Store1? || Store2? || Land?
    }
  }

  datatype State = State(now: int, tiers: Tiers, phases: seq<Phase>, flights: map<Key, nat>, cancelled: set<nat>)

  datatype Event =
    | ReadL1(c: nat)
    | ReadL2(c: nat, readable: bool)
    | Promote(c: nat)
    | Join(c: nat)
    | FetchReturns(c: nat, result: Fetched)
    | StoreL1(c: nat)
    | StoreL2(c: nat, stored: bool)
    | Close(c: nat)
    | Wake(c: nat)
    | Cancel(who: nat)
    | Tick(elapsed: nat)
    | Lose(local: set<Key>, away: set<Key>)
  {
    /** A step of the protocol, as opposed to one of its environment. */
    predicate Protocol() {
      !Cancel? && !Tick? && !Lose?
    }
  }

  function Start(su: Setup): State {
    State(0, su.initial, seq(|su.calls|, _ => Probe1), map[], {})
  }

  /** A cached item as a caller of `api` sees it: `GetOrFetch` does not look at the negative flag. */
  function ReplyOf(api: Api, item: Item): Reply {
    if api.WithNegative? && item.negative then Fail(Sentinel(NotFound)) else Value(item.value)
  }

  /** What the flight stores for a fetch result, if anything. */
  function ToStore(api: Api, result: Fetched): Option<Item> {
    match result
    case Got(v) => Some(Item(v, false))
    case Failed(e) => if api.WithNegative? && e.Is(NotFound) then Some(Item([], true)) else None
  }

  function FetchReply(api: Api, result: Fetched): Reply {
    match result
    case Got(v) => Value(v)
    case Failed(e) => if api.WithNegative? && e.Is(NotFound) then Fail(Sentinel(NotFound)) else Fail(e)
  }

  predicate Enabled(su: Setup, s: State, ev: Event) {
    if !ev.Protocol() then (ev.Cancel? ==> ev.who < |su.calls|)
    else
      && |s.phases| == |su.calls|
      && ev.c < |su.calls|
      && var p := s.phases[ev.c];
         match ev
         case ReadL1(_) => p.Probe1? || p.Check1?
         case ReadL2(c, readable) => (p.Probe2? && (readable ==> c !in s.cancelled)) || p.Check2?
         case Promote(_) => p.ProbePromote? || p.CheckPromote?
         case Join(_) => p.Enter?
         case FetchReturns(_, _) => p.Fetching?
         case StoreL1(_) => p.Store1?
         case StoreL2(_, _) => p.Store2?
         case Close(_) => p.Land?
         case Wake(_) => p.Wait? && p.leader < |s.phases| && s.phases[p.leader].Done?
  }

  function At(s: State, c: nat, p: Phase): State
    requires c < |s.phases|
  {
    s.(phases := s.phases[c := p])
  }

  function Next(su: Setup, s: State, ev: Event): State
    requires Enabled(su, s, ev)
  {
    match ev
    case Cancel(c) => s.(cancelled := s.cancelled + {c})
    case Tick(d) => s.(now := s.now + d)
    case Lose(local, away) => s.(tiers := Tiers(s.tiers.l1 - local, s.tiers.l2 - away))
    case ReadL1(c) =>
      var k, probing := su.calls[c].key, s.phases[c].Probe1?;
      if L1Hit(s.tiers, k, s.now) then
        var reply := ReplyOf(su.calls[c].api, ItemOf(s.tiers.l1[k]));
        At(s, c, if probing then Done(reply, true) else Land(reply))
      else
        At(s.(tiers := s.tiers.(l1 := s.tiers.l1 - {k})), c,
           if probing then (if su.cfg.hasL2 then Probe2 else Enter)
           else (if su.cfg.hasL2 then Check2 else Fetching))
    case ReadL2(c, readable) =>
      var k, probing := su.calls[c].key, s.phases[c].Probe2?;
      if readable && L2Hit(su.cfg, s.tiers, k, s.now) then
        At(s, c, if probing then ProbePromote(s.tiers.l2[k].item) else CheckPromote(s.tiers.l2[k].item))
      else
        At(s, c, if probing then Enter else Fetching)
    case Promote(c) =>
      var k, p := su.calls[c].key, s.phases[c];
      var reply := ReplyOf(su.calls[c].api, p.item);
      At(s.(tiers := s.tiers.(l1 := s.tiers.l1[k := Promoted(su.cfg, s.now, p.item)])), c,
         if p.ProbePromote? then Done(reply, true) else Land(reply))
    case Join(c) =>
      var k := su.calls[c].key;
      if k in s.flights then At(s, c, Wait(s.flights[k]))
      else At(s.(flights := s.flights[k := c]), c, Check1)
    case FetchReturns(c, result) =>
      var api := su.calls[c].api;
      At(s, c, match ToStore(api, result)
               case Some(item) => Store1(item, FetchReply(api, result))
               case None => Land(FetchReply(api, result)))
    case StoreL1(c) =>
      var k, p := su.calls[c].key, s.phases[c];
      var e := Entry(p.item.value, s.now + su.cfg.TTL(p.item.negative), p.item.negative);
      At(s.(tiers := s.tiers.(l1 := s.tiers.l1[k := e])), c,
         if su.cfg.UsesL2() then Store2(p.item, p.reply) else Land(p.reply))
    case StoreL2(c, stored) =>
      var k, p := su.calls[c].key, s.phases[c];
      var r := Remote(p.item, RemoteExpiry(s.now, su.cfg.TTL(p.item.negative)));
      At(if stored then s.(tiers := s.tiers.(l2 := s.tiers.l2[k := r])) else s, c, Land(p.reply))
    case Close(c) =>
      At(s.(flights := s.flights - {su.calls[c].key}), c, Done(s.phases[c].reply, false))
    case Wake(c) =>
      At(s, c, Done(s.phases[s.phases[c].leader].reply, false))
  }

  /** `trace` can be taken from `s`. */
  ghost predicate IsRun(su: Setup, s: State, trace: seq<Event>)
    decreases |trace|, 0
  {
    trace == [] ||
    (IsRun(su, s, trace[..|trace| - 1]) && Enabled(su, Run(su, s, trace[..|trace| - 1]), trace[|trace| - 1]))
  }

  ghost function Run(su: Setup, s: State, trace: seq<Event>): State
    requires IsRun(su, s, trace)
    decreases |trace|, 1
  {
    if trace == [] then s else Next(su, Run(su, s, trace[..|trace| - 1]), trace[|trace| - 1])
  }

  lemma {:induction false} PrefixIsRun(su: Setup, s: State, trace: seq<Event>, i: nat)
    requires IsRun(su, s, trace) && i <= |trace|
    ensures IsRun(su, s, trace[..i])
    decreases |trace|
  {
    if i == |trace| {
      assert trace[..i] == trace;
    } else {
      assert trace[..|trace| - 1][..i] == trace[..i];
      PrefixIsRun(su, s, trace[..|trace| - 1], i);
    }
  }

  lemma NoEvents(su: Setup, s: State)
    ensures IsRun(su, s, []) && Run(su, s, []) == s
  {
  }

  /** One more event at the end of a run. */
  lemma RunsOn(su: Setup, s: State, trace: seq<Event>, ev: Event)
    requires IsRun(su, s, trace) && Enabled(su, Run(su, s, trace), ev)
    ensures IsRun(su, s, trace + [ev]) && Run(su, s, trace + [ev]) == Next(su, Run(su, s, trace), ev)
  {
    assert (trace + [ev])[..|trace|] == trace;
  }

  // ------------------------------------------------------------------- flights

  /** The open flights and the callers that lead one are the same thing; waiters wait for a real flight. */
  ghost predicate FlightsTracked(su: Setup, s: State) {
    && |s.phases| == |su.calls|
    && (forall k :: k in s.flights ==>
          s.flights[k] < |su.calls| && su.calls[s.flights[k]].key == k && s.phases[s.flights[k]].InFlight())
    && (forall c :: 0 <= c < |su.calls| && s.phases[c].InFlight() ==>
          su.calls[c].key in s.flights && s.flights[su.calls[c].key] == c)
    && (forall c :: 0 <= c < |su.calls| && s.phases[c].Wait? ==>
          s.phases[c].leader < |su.calls| && su.calls[s.phases[c].leader].key == su.calls[c].key &&
          (s.phases[s.phases[c].leader].InFlight() || s.phases[s.phases[c].leader].Done?))
  }

  /** Only caller `c` moves, neither into nor out of the lead of a flight, and it does not start to wait. */
  ghost predicate MovesWithin(s: State, s': State, c: nat) {
    && c < |s.phases| == |s'.phases|
    && !s.phases[c].Done?
    && s'.flights == s.flights
    && s'.phases == s.phases[c := s'.phases[c]]
    && !s'.phases[c].Wait?
    && s'.phases[c].InFlight() == s.phases[c].InFlight()
  }

  lemma MovingWithinKeepsFlights(su: Setup, s: State, s': State, c: nat)
    requires FlightsTracked(su, s) && MovesWithin(s, s', c)
    ensures FlightsTracked(su, s')
  {
  }

  lemma MostStepsMoveWithin(su: Setup, s: State, ev: Event)
    requires Enabled(su, s, ev) && ev.Protocol() && !ev.Join? && !ev.Close?
    ensures MovesWithin(s, Next(su, s, ev), ev.c)
  {
  }

  lemma WaitingKeepsFlights(su: Setup, s: State, c: nat)
    requires FlightsTracked(su, s) && c < |s.phases| && s.phases[c].Enter? && su.calls[c].key in s.flights
    ensures FlightsTracked(su, At(s, c, Wait(s.flights[su.calls[c].key])))
  {
  }

  lemma OpeningKeepsFlights(su: Setup, s: State, c: nat)
    requires FlightsTracked(su, s) && c < |s.phases| && s.phases[c].Enter? && su.calls[c].key !in s.flights
    ensures FlightsTracked(su, At(s.(flights := s.flights[su.calls[c].key := c]), c, Check1))
  {
  }

  lemma JoinKeepsFlights(su: Setup, s: State, c: nat)
    requires FlightsTracked(su, s) && Enabled(su, s, Join(c))
    ensures FlightsTracked(su, Next(su, s, Join(c)))
  {
    if su.calls[c].key in s.flights {
      WaitingKeepsFlights(su, s, c);
    } else {
      OpeningKeepsFlights(su, s, c);
    }
  }

  lemma CloseKeepsFlights(su: Setup, s: State, c: nat)
    requires FlightsTracked(su, s) && Enabled(su, s, Close(c))
    ensures FlightsTracked(su, Next(su, s, Close(c)))
  {
  }

  lemma StepKeepsFlightsTracked(su: Setup, s: State, ev: Event)
    requires FlightsTracked(su, s) && Enabled(su, s, ev)
    ensures FlightsTracked(su, Next(su, s, ev))
  {
    if ev.Join? {
      JoinKeepsFlights(su, s, ev.c);
    } else if ev.Close? {
      CloseKeepsFlights(su, s, ev.c);
    } else if ev.Protocol() {
      MostStepsMoveWithin(su, s, ev);
      MovingWithinKeepsFlights(su, s, Next(su, s, ev), ev.c);
    }
  }

  lemma {:induction false} RunsKeepFlightsTracked(su: Setup, trace: seq<Event>)
    requires IsRun(su, Start(su), trace)
    ensures FlightsTracked(su, Run(su, Start(su), trace))
  {
    if trace != [] {
      RunsKeepFlightsTracked(su, trace[..|trace| - 1]);
      StepKeepsFlightsTracked(su, Run(su, Start(su), trace[..|trace| - 1]), trace[|trace| - 1]);
    }
  }

  /** Over every interleaving, at most one fetch per key is running. */
  lemma AtMostOneFetch(su: Setup, trace: seq<Event>, c: nat, d: nat)
    requires IsRun(su, Start(su), trace) && c < |su.calls| && d < |su.calls|
    ensures FlightsTracked(su, Run(su, Start(su), trace))
    ensures var s := Run(su, Start(su), trace);
      s.phases[c].Fetching? && s.phases[d].Fetching? && su.calls[c].key == su.calls[d].key ==> c == d
  {
    RunsKeepFlightsTracked(su, trace);
  }

  // -------------------------------------------- no fetch while a stored entry is readable

  /** The step makes a caller start a fetch for `k`. */
  ghost predicate StartsFetch(su: Setup, s: State, ev: Event, k: Key)
    requires Enabled(su, s, ev)
  {
    && ev.Protocol() && |s.phases| == |su.calls|
    && su.calls[ev.c].key == k && !s.phases[ev.c].Fetching? && Next(su, s, ev).phases[ev.c].Fetching?
  }

  /** No flight for `k` has found the first tier empty (`beyondL1`) and gone on, and none is fetching. */
  ghost predicate NoneAhead(su: Setup, s: State, k: Key, beyondL1: bool) {
    && |s.phases| == |su.calls|
    && forall c :: 0 <= c < |su.calls| && su.calls[c].key == k ==>
         !s.phases[c].Fetching? && (beyondL1 ==> !s.phases[c].Check2?)
  }

  /** The caller that has just stored is the only leader for its key, so nobody is ahead. */
  lemma StoringLeaderIsAlone(su: Setup, s: State, c: nat, beyondL1: bool)
    requires FlightsTracked(su, s) && c < |su.calls|
    requires s.phases[c].Store2? || s.phases[c].Land?
    ensures NoneAhead(su, s, su.calls[c].key, beyondL1)
  {
  }

  lemma L1KeepsFlightsBack(su: Setup, s: State, ev: Event, k: Key)
    requires Enabled(su, s, ev) && NoneAhead(su, s, k, true) && L1Hit(s.tiers, k, s.now)
    ensures !StartsFetch(su, s, ev, k) && NoneAhead(su, Next(su, s, ev), k, true)
  {
  }

  lemma L2KeepsFlightsBack(su: Setup, s: State, ev: Event, k: Key)
    requires Enabled(su, s, ev) && NoneAhead(su, s, k, false) && L2Hit(su.cfg, s.tiers, k, s.now)
    requires ev.ReadL2? && ev.c < |su.calls| && su.calls[ev.c].key == k ==> ev.readable
    ensures !StartsFetch(su, s, ev, k) && NoneAhead(su, Next(su, s, ev), k, false)
  {
  }

  /** Between positions `i` and `j` of the run, the entry for `k` can be read in the first tier at every moment. */
  ghost predicate L1ReadableThroughout(su: Setup, trace: seq<Event>, i: nat, j: nat, k: Key)
    requires i <= j <= |trace| && IsRun(su, Start(su), trace)
  {
    forall n: nat :: i <= n < j ==>
      IsRun(su, Start(su), trace[..n]) &&
      L1Hit(Run(su, Start(su), trace[..n]).tiers, k, Run(su, Start(su), trace[..n]).now)
  }

  /** The same of the second tier, with every flight's read of it succeeding. */
  ghost predicate L2ReadableThroughout(su: Setup, trace: seq<Event>, i: nat, j: nat, k: Key)
    requires i <= j <= |trace| && IsRun(su, Start(su), trace)
  {
    forall n: nat :: i <= n < j ==>
      && IsRun(su, Start(su), trace[..n])
      && L2Hit(su.cfg, Run(su, Start(su), trace[..n]).tiers, k, Run(su, Start(su), trace[..n]).now)
      && (trace[n].ReadL2? && trace[n].c < |su.calls| && su.calls[trace[n].c].key == k ==> trace[n].readable)
  }

  lemma RunsExtendStepwise(su: Setup, s: State, trace: seq<Event>, n: nat)
    requires IsRun(su, s, trace) && n < |trace|
    ensures IsRun(su, s, trace[..n]) && IsRun(su, s, trace[..n + 1])
    ensures Enabled(su, Run(su, s, trace[..n]), trace[n])
    ensures Run(su, s, trace[..n + 1]) == Next(su, Run(su, s, trace[..n]), trace[n])
  {
    PrefixIsRun(su, s, trace, n);
    PrefixIsRun(su, s, trace, n + 1);
    assert trace[..n + 1][..n] == trace[..n];
  }

  lemma NoneAheadOfStore(su: Setup, trace: seq<Event>, i: nat, first: bool)
    requires IsRun(su, Start(su), trace) && i < |trace|
    requires if first then trace[i].StoreL1? else trace[i].StoreL2?
    ensures IsRun(su, Start(su), trace[..i + 1]) && trace[i].c < |su.calls|
    ensures NoneAhead(su, Run(su, Start(su), trace[..i + 1]), su.calls[trace[i].c].key, first)
  {
    RunsExtendStepwise(su, Start(su), trace, i);
    RunsKeepFlightsTracked(su, trace[..i + 1]);
    StoringLeaderIsAlone(su, Run(su, Start(su), trace[..i + 1]), trace[i].c, first);
  }

  /**
   Once a flight has stored an entry, no fetch for that key starts for as long as one tier goes on
   holding it readably: the first tier after the first store, or the second tier after the second.
   */
  lemma {:induction false} NoFetchWhileReadable(su: Setup, trace: seq<Event>, i: nat, j: nat, first: bool)
    requires IsRun(su, Start(su), trace) && i < j < |trace|
    requires if first then trace[i].StoreL1? else trace[i].StoreL2?
    requires trace[i].c < |su.calls|
    requires if first then L1ReadableThroughout(su, trace, i + 1, j + 1, su.calls[trace[i].c].key)
             else L2ReadableThroughout(su, trace, i + 1, j + 1, su.calls[trace[i].c].key)
    ensures IsRun(su, Start(su), trace[..j]) && Enabled(su, Run(su, Start(su), trace[..j]), trace[j])
    ensures !StartsFetch(su, Run(su, Start(su), trace[..j]), trace[j], su.calls[trace[i].c].key)
    ensures IsRun(su, Start(su), trace[..j + 1])
    ensures NoneAhead(su, Run(su, Start(su), trace[..j + 1]), su.calls[trace[i].c].key, first)
  {
    hide Next, Enabled, FlightsTracked, NoneAhead, StartsFetch;
    var k := su.calls[trace[i].c].key;
    RunsExtendStepwise(su, Start(su), trace, j);
    if j == i + 1 {
      NoneAheadOfStore(su, trace, i, first);
    } else {
      NoFetchWhileReadable(su, trace, i, j - 1, first);
    }
    var s := Run(su, Start(su), trace[..j]);
    if first {
      L1KeepsFlightsBack(su, s, trace[j], k);
    } else {
      L2KeepsFlightsBack(su, s, trace[j], k);
    }
  }

  // ----------------------------------------------- exactly when a flight fetches

  /** A run together with the states it goes through. */
  ghost predicate StepsThrough(su: Setup, states: seq<State>, events: seq<Event>) {
    && |states| == |events| + 1 && states[0] == Start(su)
    && forall n :: 0 <= n < |events| ==>
         Enabled(su, states[n], events[n]) && Next(su, states[n], events[n]) == states[n + 1]
  }

  lemma {:induction false} SteppingIsRunning(su: Setup, states: seq<State>, events: seq<Event>, n: nat)
    requires StepsThrough(su, states, events) && n <= |events|
    ensures IsRun(su, Start(su), events[..n]) && Run(su, Start(su), events[..n]) == states[n]
  {
    if n > 0 {
      SteppingIsRunning(su, states, events, n - 1);
      assert events[..n][..n - 1] == events[..n - 1];
      assert Enabled(su, states[n - 1], events[n - 1]);
    }
  }

  /** The states of a run, before each of its events and at its end. */
  ghost function StatesOf(su: Setup, trace: seq<Event>): seq<State>
    requires IsRun(su, Start(su), trace)
  {
    if trace == [] then [Start(su)] else StatesOf(su, trace[..|trace| - 1]) + [Run(su, Start(su), trace)]
  }

  lemma {:induction false} RunHasStates(su: Setup, trace: seq<Event>)
    requires IsRun(su, Start(su), trace)
    ensures StepsThrough(su, StatesOf(su, trace), trace)
    ensures StatesOf(su, trace)[|trace|] == Run(su, Start(su), trace)
  {
    if trace != [] {
      var before, last, states := trace[..|trace| - 1], trace[|trace| - 1], StatesOf(su, trace);
      RunHasStates(su, before);
      forall n | 0 <= n < |trace|
        ensures Enabled(su, states[n], trace[n]) && Next(su, states[n], trace[n]) == states[n + 1]
      {
        if n < |before| {
          assert Enabled(su, StatesOf(su, before)[n], before[n]);
        }
      }
    }
  }

  lemma CountStep(su: Setup, s: State, ev: Event)
    requires Enabled(su, s, ev) && |s.phases| == |su.calls|
    ensures |Next(su, s, ev).phases| == |su.calls|
  {
  }

  lemma {:induction false} CountThrough(su: Setup, states: seq<State>, trace: seq<Event>, n: nat)
    requires StepsThrough(su, states, trace) && n <= |trace|
    ensures |states[n].phases| == |su.calls|
  {
    if n > 0 {
      CountThrough(su, states, trace, n - 1);
      assert Enabled(su, states[n - 1], trace[n - 1]);
      CountStep(su, states[n - 1], trace[n - 1]);
    }
  }

  /** The flight leader `c` finds no readable first-tier entry at its double check. */
  predicate MissesL1(su: Setup, s: State, ev: Event, c: nat) {
    && ev == ReadL1(c) && c < |su.calls| && c < |s.phases| && s.phases[c].Check1?
    && !L1Hit(s.tiers, su.calls[c].key, s.now)
  }

  /** Later in its double check, the leader `c` finds no readable second-tier entry, or fails to read it. */
  predicate MissesL2(su: Setup, s: State, ev: Event, c: nat) {
    && ev.ReadL2? && ev.c == c && c < |su.calls|
    && !(ev.readable && L2Hit(su.cfg, s.tiers, su.calls[c].key, s.now))
  }

  predicate Own(ev: Event, c: nat) {
    ev.Protocol() && ev.c == c
  }

  /** The misses of one double check: the first tier at `i`, and then, if there is one, the second at `j`. */
  ghost predicate DoubleMiss(su: Setup, states: seq<State>, trace: seq<Event>, i: nat, j: nat, c: nat)
    requires j < |trace| < |states|
  {
    && i <= j && MissesL1(su, states[i], trace[i], c)
    && if su.cfg.hasL2 then
         i < j && (forall n :: i < n < j ==> !Own(trace[n], c)) && MissesL2(su, states[j], trace[j], c)
       else i == j
  }

  /** A step leaves every caller but its own where it is. */
  lemma StepMovesItsCaller(su: Setup, s: State, ev: Event, c: nat)
    requires Enabled(su, s, ev) && c < |s.phases| && !Own(ev, c)
    ensures c < |Next(su, s, ev).phases| && Next(su, s, ev).phases[c] == s.phases[c]
  {
  }

  /** A caller comes to look at the second tier only by missing the first one. */
  lemma EntersCheck2(su: Setup, s: State, ev: Event, c: nat)
    requires Enabled(su, s, ev) && Own(ev, c)
    ensures c < |Next(su, s, ev).phases|
    ensures Next(su, s, ev).phases[c].Check2? <==> MissesL1(su, s, ev, c) && su.cfg.hasL2
  {
  }

  /** One step starts a fetch exactly when it is the last miss of a double check. */
  lemma StartsFetchStep(su: Setup, s: State, ev: Event, k: Key)
    requires Enabled(su, s, ev)
    ensures StartsFetch(su, s, ev, k) <==> (
      && ev.Protocol() && su.calls[ev.c].key == k
      && (|| (MissesL1(su, s, ev, ev.c) && !su.cfg.hasL2)
          || (s.phases[ev.c].Check2? && MissesL2(su, s, ev, ev.c))))
  {
  }

  /** A caller about to look at the second tier has missed the first one and has rested since. */
  lemma {:induction false} Check2Came(su: Setup, states: seq<State>, trace: seq<Event>, j: nat, c: nat) returns (i: nat)
    requires StepsThrough(su, states, trace) && j <= |trace|
    requires c < |states[j].phases| && states[j].phases[c].Check2?
    ensures i < j && MissesL1(su, states[i], trace[i], c) && su.cfg.hasL2
    ensures forall n :: i < n < j ==> !Own(trace[n], c)
  {
    i := j - 1;
    assert Enabled(su, states[i], trace[i]);
    CountThrough(su, states, trace, j);
    CountThrough(su, states, trace, i);
    if Own(trace[i], c) {
      EntersCheck2(su, states[i], trace[i], c);
    } else {
      StepMovesItsCaller(su, states[i], trace[i], c);
      i := Check2Came(su, states, trace, j - 1, c);
    }
  }

  /** While `c` rests, it stays where it is. */
  lemma {:induction false} RestingStays(su: Setup, states: seq<State>, trace: seq<Event>, i: nat, j: nat, c: nat)
    requires StepsThrough(su, states, trace) && i <= j <= |trace| && c < |states[i].phases|
    requires forall n :: i <= n < j ==> !Own(trace[n], c)
    ensures c < |states[j].phases| && states[j].phases[c] == states[i].phases[c]
    decreases j - i
  {
    if i < j {
      RestingStays(su, states, trace, i, j - 1, c);
      assert Enabled(su, states[j - 1], trace[j - 1]);
      StepMovesItsCaller(su, states[j - 1], trace[j - 1], c);
    }
  }

  /** A double miss ends in a fetch. */
  lemma DoubleMissFetches(su: Setup, states: seq<State>, trace: seq<Event>, i: nat, j: nat, c: nat)
    requires StepsThrough(su, states, trace) && j < |trace| && DoubleMiss(su, states, trace, i, j, c)
    ensures Enabled(su, states[j], trace[j]) && StartsFetch(su, states[j], trace[j], su.calls[c].key)
  {
    assert Enabled(su, states[j], trace[j]);
    if su.cfg.hasL2 {
      assert Enabled(su, states[i], trace[i]);
      EntersCheck2(su, states[i], trace[i], c);
      RestingStays(su, states, trace, i + 1, j, c);
    }
    StartsFetchStep(su, states[j], trace[j], su.calls[c].key);
  }

  lemma FetchStartsAt(su: Setup, states: seq<State>, trace: seq<Event>, j: nat, k: Key)
    requires StepsThrough(su, states, trace) && j < |trace|
    ensures Enabled(su, states[j], trace[j])
    ensures StartsFetch(su, states[j], trace[j], k) <==>
      exists i: nat, c: nat :: DoubleMiss(su, states, trace, i, j, c) && su.calls[c].key == k
  {
    assert Enabled(su, states[j], trace[j]);
    StartsFetchStep(su, states[j], trace[j], k);
    if StartsFetch(su, states[j], trace[j], k) {
      var c := trace[j].c;
      if trace[j].ReadL1? {
        assert DoubleMiss(su, states, trace, j, j, c);
      } else {
        var i := Check2Came(su, states, trace, j, c);
        assert DoubleMiss(su, states, trace, i, j, c);
      }
    }
    forall i: nat, c: nat | DoubleMiss(su, states, trace, i, j, c) && su.calls[c].key == k
      ensures StartsFetch(su, states[j], trace[j], k)
    {
      DoubleMissFetches(su, states, trace, i, j, c);
    }
  }

  /**
   Exactly when a flight starts a fetch, in every run: its own look at the first tier missed, and so
   did its later look at the second. So an entry that can be read somewhere all the time is fetched
   again only if it changes tiers between the two looks, or if the second look fails.
   */
  lemma FetchStartsExactlyWhen(su: Setup, trace: seq<Event>, j: nat, k: Key)
    requires IsRun(su, Start(su), trace) && j < |trace|
    ensures |StatesOf(su, trace)| == |trace| + 1 && Enabled(su, StatesOf(su, trace)[j], trace[j])
    ensures var states := StatesOf(su, trace);
      StartsFetch(su, states[j], trace[j], k) <==>
        exists i: nat, c: nat :: DoubleMiss(su, states, trace, i, j, c) && su.calls[c].key == k
  {
    RunHasStates(su, trace);
    FetchStartsAt(su, StatesOf(su, trace), trace, j, k);
  }

  // Readable in *some* tier at every moment is not enough: an entry may change tiers between the two
  // reads of a flight's double check. The run below does that with every read succeeding.

  ghost predicate ReadableSomewhere(su: Setup, s: State, k: Key) {
    L1Hit(s.tiers, k, s.now) || L2Hit(su.cfg, s.tiers, k, s.now)
  }

  const HOP_SETUP := Setup(Config(100, 100, 100, true, true), seq(3, _ => Call("k", WithNegative)), Tiers(map[], map[]))

  function HopState(t: Tiers, p0: Phase, p1: Phase, p2: Phase, flights: map<Key, nat>): State {
    State(0, t, [p0, p1, p2], flights, {})
  }

  /** Caller 1 looks and misses; caller 0 opens a flight, fetches and stores. */
  function HopBefore(): (seq<State>, seq<Event>) {
    var none, item, reply := Tiers(map[], map[]), Item([], false), Value([]);
    var near := Tiers(map["k" := Entry([], 100, false)], map[]);
    var both := near.(l2 := map["k" := Remote(item, Some(100))]);
    ([HopState(none, Probe1, Probe1, Probe1, map[]),
      HopState(none, Probe1, Probe2, Probe1, map[]),
      HopState(none, Probe1, Enter, Probe1, map[]),
      HopState(none, Probe2, Enter, Probe1, map[]),
      HopState(none, Enter, Enter, Probe1, map[]),
      HopState(none, Check1, Enter, Probe1, map["k" := 0]),
      HopState(none, Check2, Enter, Probe1, map["k" := 0]),
      HopState(none, Fetching, Enter, Probe1, map["k" := 0]),
      HopState(none, Store1(item, reply), Enter, Probe1, map["k" := 0]),
      HopState(near, Store2(item, reply), Enter, Probe1, map["k" := 0]),
      HopState(both, Land(reply), Enter, Probe1, map["k" := 0])],
     [ReadL1(1), ReadL2(1, true), ReadL1(0), ReadL2(0, true), Join(0), ReadL1(0), ReadL2(0, true),
      FetchReturns(0, Got([])), StoreL1(0), StoreL2(0, true)])
  }

  /**
   The first-tier copy is evicted and caller 1's flight misses it; caller 2 promotes the other copy,
   which is then dropped.
   */
  function HopAfter(): (seq<State>, seq<Event>) {
    var item, reply := Item([], false), Value([]);
    var near := Tiers(map["k" := Entry([], 100, false)], map[]);
    var far := Tiers(map[], map["k" := Remote(item, Some(100))]);
    var both := Tiers(near.l1, far.l2);
    var done := Done(reply, false);
    ([HopState(both, done, Enter, Probe1, map[]),
      HopState(far, done, Enter, Probe1, map[]),
      HopState(far, done, Check1, Probe1, map["k" := 1]),
      HopState(far, done, Check2, Probe1, map["k" := 1]),
      HopState(far, done, Check2, Probe2, map["k" := 1]),
      HopState(far, done, Check2, ProbePromote(item), map["k" := 1]),
      HopState(both, done, Check2, Done(reply, true), map["k" := 1]),
      HopState(near, done, Check2, Done(reply, true), map["k" := 1])],
     [Close(0), Event.Lose({"k"}, {}), Join(1), ReadL1(1), ReadL1(2), ReadL2(2, true), Promote(2),
      Event.Lose({}, {"k"})])
  }

  lemma {:induction false} HopProbes(n: nat)
    requires n < 5
    ensures Enabled(HOP_SETUP, HopBefore().0[n], HopBefore().1[n])
    ensures Next(HOP_SETUP, HopBefore().0[n], HopBefore().1[n]) == HopBefore().0[n + 1]
  {
  }

  lemma {:induction false} HopFetches(n: nat)
    requires 5 <= n < 10
    ensures Enabled(HOP_SETUP, HopBefore().0[n], HopBefore().1[n])
    ensures Next(HOP_SETUP, HopBefore().0[n], HopBefore().1[n]) == HopBefore().0[n + 1]
  {
  }

  lemma {:induction false} HopMoves(n: nat)
    requires n < 4
    ensures var s := if n == 0 then HopBefore().0[10] else HopAfter().0[n - 1];
      Enabled(HOP_SETUP, s, HopAfter().1[n]) && Next(HOP_SETUP, s, HopAfter().1[n]) == HopAfter().0[n]
  {
  }

  lemma {:induction false} HopPromotes(n: nat)
    requires 4 <= n < 8
    ensures Enabled(HOP_SETUP, HopAfter().0[n - 1], HopAfter().1[n])
    ensures Next(HOP_SETUP, HopAfter().0[n - 1], HopAfter().1[n]) == HopAfter().0[n]
  {
  }

  function HopStates(): seq<State> {
    HopBefore().0 + HopAfter().0
  }

  function HopTrace(): seq<Event> {
    HopBefore().1 + HopAfter().1
  }

  lemma HopSteps()
    ensures StepsThrough(HOP_SETUP, HopStates(), HopTrace())
  {
    var states, trace := HopStates(), HopTrace();
    assert Start(HOP_SETUP).phases == [Probe1, Probe1, Probe1];
    forall n | 0 <= n < |trace|
      ensures Enabled(HOP_SETUP, states[n], trace[n]) && Next(HOP_SETUP, states[n], trace[n]) == states[n + 1]
    {
      if n < 5 {
        HopProbes(n);
      } else if n < 10 {
        HopFetches(n);
      } else if n < 14 {
        HopMoves(n - 10);
      } else {
        HopPromotes(n - 10);
      }
    }
  }

  lemma {:induction false} HopKeepsReadable(n: nat)
    requires 9 <= n <= 18
    ensures ReadableSomewhere(HOP_SETUP, HopStates()[n], "k")
  {
    if n <= 10 {
      assert HopStates()[n] == HopBefore().0[n];
    } else {
      assert HopStates()[n] == HopAfter().0[n - 11];
    }
  }

  lemma {:induction false} HopReadable(n: nat)
    requires 9 <= n <= 18
    ensures IsRun(HOP_SETUP, Start(HOP_SETUP), HopTrace()[..n])
    ensures ReadableSomewhere(HOP_SETUP, Run(HOP_SETUP, Start(HOP_SETUP), HopTrace()[..n]), "k")
  {
    HopSteps();
    SteppingIsRunning(HOP_SETUP, HopStates(), HopTrace(), n);
    HopKeepsReadable(n);
  }

  lemma HopTraceReads()
    ensures HopTrace()[8] == StoreL1(0) && |HopTrace()| == 18
    ensures forall n :: 0 <= n < 18 && HopTrace()[n].ReadL2? ==> HopTrace()[n].readable
  {
  }

  lemma HopEnds()
    ensures IsRun(HOP_SETUP, Start(HOP_SETUP), HopTrace())
    ensures Run(HOP_SETUP, Start(HOP_SETUP), HopTrace()) == HopAfter().0[7]
  {
    HopSteps();
    SteppingIsRunning(HOP_SETUP, HopStates(), HopTrace(), 18);
    assert HopTrace()[..18] == HopTrace();
  }

  lemma HopRefetches()
    ensures Enabled(HOP_SETUP, HopAfter().0[7], ReadL2(1, true))
    ensures StartsFetch(HOP_SETUP, HopAfter().0[7], ReadL2(1, true), "k")
  {
  }

  /**
   After caller 0's flight has stored the entry (event 8), it can be read in one tier or the other
   at every moment, no read fails, and still caller 1 fetches again.
   */
  lemma ReadableSomewhereNotEnough()
    ensures HopTrace()[8] == StoreL1(0) && |HopTrace()| == 18
    ensures forall n :: 0 <= n < 18 && HopTrace()[n].ReadL2? ==> HopTrace()[n].readable
    ensures forall n: nat :: 9 <= n <= 18 ==>
      && IsRun(HOP_SETUP, Start(HOP_SETUP), HopTrace()[..n])
      && ReadableSomewhere(HOP_SETUP, Run(HOP_SETUP, Start(HOP_SETUP), HopTrace()[..n]), "k")
    ensures IsRun(HOP_SETUP, Start(HOP_SETUP), HopTrace())
    ensures var s := Run(HOP_SETUP, Start(HOP_SETUP), HopTrace());
      Enabled(HOP_SETUP, s, ReadL2(1, true)) && StartsFetch(HOP_SETUP, s, ReadL2(1, true), "k")
  {
    HopTraceReads();
    forall n: nat | 9 <= n <= 18
      ensures IsRun(HOP_SETUP, Start(HOP_SETUP), HopTrace()[..n])
      ensures ReadableSomewhere(HOP_SETUP, Run(HOP_SETUP, Start(HOP_SETUP), HopTrace()[..n]), "k")
    {
      HopReadable(n);
    }
    HopEnds();
    HopRefetches();
  }

  // ------------------------------------------------------- staleness, step by step

  /** The event puts `item` for `k` into a tier; into the second one if `far`. */
  predicate Puts(su: Setup, s: State, ev: Event, k: Key, item: Item, far: bool) {
    && (if far then ev.StoreL2? && ev.stored else ev.StoreL1?)
    && ev.c < |su.calls| && ev.c < |s.phases| && su.calls[ev.c].key == k
    && (if far then s.phases[ev.c].Store2? else s.phases[ev.c].Store1?) && s.phases[ev.c].item == item
  }

  /** Its TTL is over in every tier at some time. */
  predicate ItemRunsOut(cfg: Config, item: Item) {
    cfg.UsesL2() ==> (if item.negative then cfg.negativeTTL else cfg.defaultTTL) > 0
  }

  /** What event `i` reads in the second tier was put there, and its TTL is not over. */
  ghost predicate ReadInTime(su: Setup, states: seq<State>, trace: seq<Event>, i: nat, k: Key, item: Item)
    requires i <= |trace| < |states|
  {
    exists j ::
      && 0 <= j < i && Puts(su, states[j], trace[j], k, item, true)
      && (ItemRunsOut(su.cfg, item) ==> states[i].now <= states[j].now + su.cfg.TTL(item.negative))
  }

  /** Caller `c` promotes at `m` what it read at `i`. */
  ghost predicate Promotes(trace: seq<Event>, i: nat, m: nat, c: nat)
    requires i < m < |trace|
  {
    && trace[i].ReadL2? && trace[i].c == c && trace[m] == Promote(c)
    && forall n :: i < n < m ==> !Own(trace[n], c)
  }

  ghost predicate NearStored(su: Setup, states: seq<State>, trace: seq<Event>, n: nat, k: Key, e: Entry)
    requires n <= |trace| < |states|
  {
    exists j ::
      && 0 <= j < n && Puts(su, states[j], trace[j], k, ItemOf(e), false)
      && e.expiresAt == states[j].now + su.cfg.TTL(e.negative)
  }

  ghost predicate NearPromoted(su: Setup, states: seq<State>, trace: seq<Event>, n: nat, k: Key, e: Entry)
    requires n <= |trace| < |states|
  {
    exists i: nat, m: nat, c: nat ::
      && i < m < n && Promotes(trace, i, m, c) && ReadInTime(su, states, trace, i, k, ItemOf(e))
      && e.expiresAt == states[m].now + su.cfg.PromotionTTL(e.negative)
  }

  /** A first-tier entry was put there by a store, or promoted after it had been read in time. */
  ghost predicate NearBacked(su: Setup, states: seq<State>, trace: seq<Event>, n: nat, k: Key, e: Entry)
    requires n <= |trace| < |states|
  {
    NearStored(su, states, trace, n, k, e) || NearPromoted(su, states, trace, n, k, e)
  }

  ghost predicate FarBacked(su: Setup, states: seq<State>, trace: seq<Event>, n: nat, k: Key, r: Remote)
    requires n <= |trace| < |states|
  {
    exists j ::
      && 0 <= j < n && Puts(su, states[j], trace[j], k, r.item, true) && su.cfg.UsesL2()
      && r.expiresAt == RemoteExpiry(states[j].now, su.cfg.TTL(r.item.negative))
  }

  /** Caller `c` read in time, at its own last event, what it is about to promote. */
  ghost predicate CarryBacked(su: Setup, states: seq<State>, trace: seq<Event>, n: nat, c: nat, item: Item)
    requires n <= |trace| < |states| && c < |su.calls|
  {
    exists i: nat ::
      && i < n && trace[i].ReadL2? && trace[i].c == c && (forall m :: i < m < n ==> !Own(trace[m], c))
      && ReadInTime(su, states, trace, i, su.calls[c].key, item)
  }

  ghost predicate PhaseBacked(su: Setup, states: seq<State>, trace: seq<Event>, n: nat, c: nat, p: Phase)
    requires n <= |trace| < |states| && c < |su.calls|
  {
    && (p.ProbePromote? || p.CheckPromote? ==> CarryBacked(su, states, trace, n, c, p.item))
    && (p.Store2? ==> su.cfg.UsesL2())
  }

  ghost predicate StepBacked(su: Setup, states: seq<State>, trace: seq<Event>, n: nat, s: State)
    requires n <= |trace| < |states|
  {
    && |s.phases| == |su.calls|
    && (forall k :: k in s.tiers.l1 ==> NearBacked(su, states, trace, n, k, s.tiers.l1[k]))
    && (forall k :: k in s.tiers.l2 ==> FarBacked(su, states, trace, n, k, s.tiers.l2[k]))
    && (forall c :: 0 <= c < |su.calls| ==> PhaseBacked(su, states, trace, n, c, s.phases[c]))
  }

  lemma ReadingInTime(su: Setup, states: seq<State>, trace: seq<Event>, n: nat, k: Key, r: Remote)
    requires n <= |trace| < |states| && FarBacked(su, states, trace, n, k, r) && r.Readable(states[n].now)
    ensures ReadInTime(su, states, trace, n, k, r.item)
  {
    var j :| 0 <= j < n && Puts(su, states[j], trace[j], k, r.item, true) && su.cfg.UsesL2()
      && r.expiresAt == RemoteExpiry(states[j].now, su.cfg.TTL(r.item.negative));
  }

  /** What a step writes into the first tier is backed. */
  lemma NewNearBacked(su: Setup, states: seq<State>, trace: seq<Event>, n: nat)
    requires n < |trace| < |states| && StepBacked(su, states, trace, n, states[n])
    requires Enabled(su, states[n], trace[n]) && (trace[n].StoreL1? || trace[n].Promote?)
    ensures var k, s' := su.calls[trace[n].c].key, Next(su, states[n], trace[n]);
      k in s'.tiers.l1 && NearBacked(su, states, trace, n + 1, k, s'.tiers.l1[k])
  {
    var c, s := trace[n].c, states[n];
    var k, item := su.calls[c].key, s.phases[c].item;
    var e := Next(su, s, trace[n]).tiers.l1[k];
    assert ItemOf(e) == item;
    if trace[n].StoreL1? {
      assert Puts(su, s, trace[n], k, item, false);
    } else {
      assert PhaseBacked(su, states, trace, n, c, s.phases[c]);
      var i: nat :| i < n && trace[i].ReadL2? && trace[i].c == c && (forall m :: i < m < n ==> !Own(trace[m], c))
        && ReadInTime(su, states, trace, i, k, item);
      assert Promotes(trace, i, n, c);
    }
  }

  /** What a step writes into the second tier is backed. */
  lemma NewFarBacked(su: Setup, states: seq<State>, trace: seq<Event>, n: nat)
    requires n < |trace| < |states| && StepBacked(su, states, trace, n, states[n])
    requires Enabled(su, states[n], trace[n]) && trace[n].StoreL2? && trace[n].stored
    ensures var k, s' := su.calls[trace[n].c].key, Next(su, states[n], trace[n]);
      k in s'.tiers.l2 && FarBacked(su, states, trace, n + 1, k, s'.tiers.l2[k])
  {
    var c, s := trace[n].c, states[n];
    assert PhaseBacked(su, states, trace, n, c, s.phases[c]);
    assert Puts(su, s, trace[n], su.calls[c].key, s.phases[c].item, true);
  }

  /** The phase that a step puts its caller into is backed. */
  lemma NewPhaseBacked(su: Setup, states: seq<State>, trace: seq<Event>, n: nat)
    requires n < |trace| < |states| && StepBacked(su, states, trace, n, states[n])
    requires Enabled(su, states[n], trace[n]) && trace[n].Protocol()
    ensures PhaseBacked(su, states, trace, n + 1, trace[n].c, Next(su, states[n], trace[n]).phases[trace[n].c])
  {
    var c, s := trace[n].c, states[n];
    var k, p := su.calls[c].key, Next(su, s, trace[n]).phases[c];
    if p.ProbePromote? || p.CheckPromote? {
      ReadingInTime(su, states, trace, n, k, s.tiers.l2[k]);
      assert CarryBacked(su, states, trace, n + 1, c, p.item);
    }
  }

  /** Nothing loses its backing to an event of somebody else. */
  lemma BackingStays(su: Setup, states: seq<State>, trace: seq<Event>, n: nat, k: Key)
    requires n < |trace| < |states|
    ensures forall e :: NearBacked(su, states, trace, n, k, e) ==> NearBacked(su, states, trace, n + 1, k, e)
    ensures forall r :: FarBacked(su, states, trace, n, k, r) ==> FarBacked(su, states, trace, n + 1, k, r)
  {
  }

  lemma PhaseBackingStays(su: Setup, states: seq<State>, trace: seq<Event>, n: nat, c: nat, p: Phase)
    requires n < |trace| < |states| && c < |su.calls| && !Own(trace[n], c)
    requires PhaseBacked(su, states, trace, n, c, p)
    ensures PhaseBacked(su, states, trace, n + 1, c, p)
  {
    if p.ProbePromote? || p.CheckPromote? {
      var i: nat :| i < n && trace[i].ReadL2? && trace[i].c == c && (forall m :: i < m < n ==> !Own(trace[m], c))
        && ReadInTime(su, states, trace, i, su.calls[c].key, p.item);
      assert forall m :: i < m < n + 1 ==> !Own(trace[m], c);
    }
  }

  /** A step writes at most one first-tier entry, that of its caller's key, by a store or a promotion. */
  lemma WritesOneNear(su: Setup, s: State, ev: Event, k: Key)
    requires Enabled(su, s, ev) && k in Next(su, s, ev).tiers.l1
    ensures || (k in s.tiers.l1 && Next(su, s, ev).tiers.l1[k] == s.tiers.l1[k])
      || ((ev.StoreL1? || ev.Promote?) && su.calls[ev.c].key == k)
  {
  }

  lemma WritesOneFar(su: Setup, s: State, ev: Event, k: Key)
    requires Enabled(su, s, ev) && k in Next(su, s, ev).tiers.l2
    ensures || (k in s.tiers.l2 && Next(su, s, ev).tiers.l2[k] == s.tiers.l2[k])
      || (ev.StoreL2? && ev.stored && su.calls[ev.c].key == k)
  {
  }

  lemma StepKeepsStepBacked(su: Setup, states: seq<State>, trace: seq<Event>, n: nat)
    requires n < |trace| < |states| && StepBacked(su, states, trace, n, states[n])
    requires Enabled(su, states[n], trace[n])
    ensures StepBacked(su, states, trace, n + 1, Next(su, states[n], trace[n]))
  {
    hide Next, NearBacked, FarBacked, PhaseBacked;
    var s, ev := states[n], trace[n];
    var s' := Next(su, s, ev);
    CountStep(su, s, ev);
    forall k | k in s'.tiers.l1 ensures NearBacked(su, states, trace, n + 1, k, s'.tiers.l1[k]) {
      BackingStays(su, states, trace, n, k);
      WritesOneNear(su, s, ev, k);
      if (ev.StoreL1? || ev.Promote?) && su.calls[ev.c].key == k {
        NewNearBacked(su, states, trace, n);
      }
    }
    forall k | k in s'.tiers.l2 ensures FarBacked(su, states, trace, n + 1, k, s'.tiers.l2[k]) {
      BackingStays(su, states, trace, n, k);
      WritesOneFar(su, s, ev, k);
      if ev.StoreL2? && ev.stored && su.calls[ev.c].key == k {
        NewFarBacked(su, states, trace, n);
      }
    }
    forall c | 0 <= c < |su.calls| ensures PhaseBacked(su, states, trace, n + 1, c, s'.phases[c]) {
      if Own(ev, c) {
        NewPhaseBacked(su, states, trace, n);
      } else {
        StepMovesItsCaller(su, s, ev, c);
        PhaseBackingStays(su, states, trace, n, c, s.phases[c]);
      }
    }
  }

  lemma {:induction false} RunsAreStepBacked(su: Setup, states: seq<State>, trace: seq<Event>, n: nat)
    requires StepsThrough(su, states, trace) && n <= |trace| && su.initial == Tiers(map[], map[])
    ensures StepBacked(su, states, trace, n, states[n])
  {
    if n > 0 {
      RunsAreStepBacked(su, states, trace, n - 1);
      assert Enabled(su, states[n - 1], trace[n - 1]);
      StepKeepsStepBacked(su, states, trace, n - 1);
    }
  }

  /** In this run every promotion comes at most `delay` after the read of the promoted entry. */
  ghost predicate PromotesWithin(states: seq<State>, trace: seq<Event>, delay: int)
    requires |trace| < |states|
  {
    forall i: nat, m: nat, c: nat :: i < m < |trace| && Promotes(trace, i, m, c) ==>
      states[m].now <= states[i].now + delay
  }

  /** Some store of `item` before event `n` is at most `age` old at that event. */
  ghost predicate StoredWithin(su: Setup, states: seq<State>, trace: seq<Event>, n: nat, k: Key, item: Item, age: int)
    requires n <= |trace| < |states|
  {
    exists j, far ::
      0 <= j < n && Puts(su, states[j], trace[j], k, item, far) && states[n].now <= states[j].now + age
  }

  /**
   How old an item may be when it is served: its TTL plus the TTL of its promotion plus the delay
   before that; a negative item is promoted for the smaller of two TTLs.
   */
  function AgeBound(cfg: Config, negative: bool, delay: int): int {
    if !negative then cfg.defaultTTL + Max(0, cfg.promotionTTL + delay)
    else if cfg.negativeTTL < cfg.promotionTTL then cfg.negativeTTL + Max(0, cfg.negativeTTL + delay)
    else cfg.negativeTTL + Max(0, cfg.promotionTTL + delay)
  }

  /** The first-tier entry for `k`, if it can be served before event `n`, is within that age. */
  ghost predicate NearInTime(su: Setup, states: seq<State>, trace: seq<Event>, n: nat, k: Key, delay: int)
    requires n <= |trace| < |states|
  {
    L1Hit(states[n].tiers, k, states[n].now) ==>
      var item := ItemOf(states[n].tiers.l1[k]);
      ItemRunsOut(su.cfg, item) ==>
        StoredWithin(su, states, trace, n, k, item, AgeBound(su.cfg, item.negative, delay))
  }

  /** The second-tier entry for `k`, if it can be served before event `n`, is at most one TTL old. */
  ghost predicate FarInTime(su: Setup, states: seq<State>, trace: seq<Event>, n: nat, k: Key)
    requires n <= |trace| < |states|
  {
    L2Hit(su.cfg, states[n].tiers, k, states[n].now) ==>
      var item := states[n].tiers.l2[k].item;
      var ttl := if item.negative then su.cfg.negativeTTL else su.cfg.defaultTTL;
      ItemRunsOut(su.cfg, item) ==> StoredWithin(su, states, trace, n, k, item, ttl)
  }

  lemma NearHitStoredWithin(su: Setup, states: seq<State>, trace: seq<Event>, n: nat, k: Key, e: Entry, delay: int)
    requires n <= |trace| < |states| && NearBacked(su, states, trace, n, k, e) && !e.IsExpired(states[n].now)
    requires ItemRunsOut(su.cfg, ItemOf(e)) && PromotesWithin(states, trace, delay)
    ensures StoredWithin(su, states, trace, n, k, ItemOf(e), AgeBound(su.cfg, e.negative, delay))
  {
    var item := ItemOf(e);
    if NearStored(su, states, trace, n, k, e) {
      var j :| 0 <= j < n && Puts(su, states[j], trace[j], k, item, false)
        && e.expiresAt == states[j].now + su.cfg.TTL(item.negative);
    } else {
      var i: nat, m: nat, c: nat :|
        && i < m < n && Promotes(trace, i, m, c) && ReadInTime(su, states, trace, i, k, item)
        && e.expiresAt == states[m].now + su.cfg.PromotionTTL(item.negative);
      var j :| 0 <= j < i && Puts(su, states[j], trace[j], k, item, true)
        && (ItemRunsOut(su.cfg, item) ==> states[i].now <= states[j].now + su.cfg.TTL(item.negative));
    }
  }

  lemma FarHitStoredWithin(su: Setup, states: seq<State>, trace: seq<Event>, n: nat, k: Key, r: Remote)
    requires n <= |trace| < |states| && FarBacked(su, states, trace, n, k, r) && r.Readable(states[n].now)
    requires ItemRunsOut(su.cfg, r.item)
    ensures StoredWithin(su, states, trace, n, k, r.item, su.cfg.TTL(r.item.negative))
  {
    ReadingInTime(su, states, trace, n, k, r);
    var j :| 0 <= j < n && Puts(su, states[j], trace[j], k, r.item, true)
      && states[n].now <= states[j].now + su.cfg.TTL(r.item.negative);
  }

  lemma BackedInTime(su: Setup, states: seq<State>, trace: seq<Event>, n: nat, k: Key, delay: int)
    requires n <= |trace| < |states| && StepBacked(su, states, trace, n, states[n])
    ensures PromotesWithin(states, trace, delay) ==> NearInTime(su, states, trace, n, k, delay)
    ensures FarInTime(su, states, trace, n, k)
  {
    hide StoredWithin, NearBacked, FarBacked, PromotesWithin;
    var t, now := states[n].tiers, states[n].now;
    if L1Hit(t, k, now) && ItemRunsOut(su.cfg, ItemOf(t.l1[k])) && PromotesWithin(states, trace, delay) {
      NearHitStoredWithin(su, states, trace, n, k, t.l1[k], delay);
    }
    if L2Hit(su.cfg, t, k, now) && ItemRunsOut(su.cfg, t.l2[k].item) {
      FarHitStoredWithin(su, states, trace, n, k, t.l2[k]);
    }
  }

  /**
   Staleness over every run of the steps. A first-tier entry that can be served was put into a tier,
   under this key and by one single step, at most TTL plus promotion TTL plus delay ago, where the delay
   is the longest time that a caller lets pass between reading an entry in the second tier and
   promoting it. A second-tier entry that can be served was put there at most one TTL ago.
   */
  lemma StepStaleness(su: Setup, trace: seq<Event>, n: nat, k: Key, delay: int)
    requires IsRun(su, Start(su), trace) && n <= |trace| && su.initial == Tiers(map[], map[])
    ensures |StatesOf(su, trace)| == |trace| + 1
    ensures var states := StatesOf(su, trace);
      && (PromotesWithin(states, trace, delay) ==> NearInTime(su, states, trace, n, k, delay))
      && FarInTime(su, states, trace, n, k)
  {
    hide *;
    RunHasStates(su, trace);
    StepsAreCounted(su, StatesOf(su, trace), trace);
    RunsAreStepBacked(su, StatesOf(su, trace), trace, n);
    BackedInTime(su, StatesOf(su, trace), trace, n, k, delay);
  }

  lemma StepsAreCounted(su: Setup, states: seq<State>, trace: seq<Event>)
    requires StepsThrough(su, states, trace)
    ensures |states| == |trace| + 1
  {
  }

  // ---------------------------------------------------------------- provenance

  /** Event `ev` is a fetch for `k` that yields `item` as something to cache. */
  ghost predicate Fetches(su: Setup, ev: Event, k: Key, item: Item) {
    && ev.FetchReturns? && ev.c < |su.calls| && su.calls[ev.c].key == k
    && ToStore(su.calls[ev.c].api, ev.result) == Some(item)
  }

  /** Event `ev` is a fetch for `k` that fails with `e`. */
  ghost predicate FailsWith(su: Setup, ev: Event, k: Key, e: Err) {
    && ev.FetchReturns? && ev.c < |su.calls| && su.calls[ev.c].key == k
    && FetchReply(su.calls[ev.c].api, ev.result) == Fail(e)
  }

  /** The item came from a fetch for this key, or was in a tier from the start. */
  ghost predicate Origin(su: Setup, trace: seq<Event>, k: Key, item: Item) {
    || (exists i :: 0 <= i < |trace| && Fetches(su, trace[i], k, item))
    || (k in su.initial.l1 && ItemOf(su.initial.l1[k]) == item)
    || (k in su.initial.l2 && su.initial.l2[k].item == item)
  }

  ghost predicate SomePlainCall(su: Setup, k: Key) {
    exists c :: 0 <= c < |su.calls| && su.calls[c].key == k && su.calls[c].api.Plain?
  }

  /**
   Where a reply for `k` may come from. A value is one that was fetched; only if some caller used
   `GetOrFetch` can it be the empty value of a negative entry. An error is that of a fetch, or
   not-found read from a negative entry.
   */
  ghost predicate ReplyOrigin(su: Setup, trace: seq<Event>, k: Key, reply: Reply) {
    match reply
    case Value(v) =>
      Origin(su, trace, k, Item(v, false)) || (SomePlainCall(su, k) && Origin(su, trace, k, Item(v, true)))
    case Fail(e) =>
      || (exists i :: 0 <= i < |trace| && FailsWith(su, trace[i], k, e))
      || (e == Sentinel(NotFound) && exists v :: Origin(su, trace, k, Item(v, true)))
  }

  ghost predicate PhaseOrigin(su: Setup, trace: seq<Event>, k: Key, p: Phase) {
    && (p.ProbePromote? || p.CheckPromote? || p.Store1? || p.Store2? ==> Origin(su, trace, k, p.item))
    && (p.Store1? || p.Store2? || p.Land? || p.Done? ==> ReplyOrigin(su, trace, k, p.reply))
  }

  ghost predicate TiersOrigin(su: Setup, trace: seq<Event>, t: Tiers) {
    && (forall k :: k in t.l1 ==> Origin(su, trace, k, ItemOf(t.l1[k])))
    && (forall k :: k in t.l2 ==> Origin(su, trace, k, t.l2[k].item))
  }

  ghost predicate AllOrigin(su: Setup, trace: seq<Event>, s: State) {
    && |s.phases| == |su.calls|
    && TiersOrigin(su, trace, s.tiers)
    && (forall c :: 0 <= c < |su.calls| ==> PhaseOrigin(su, trace, su.calls[c].key, s.phases[c]))
  }

  lemma OriginSurvives(su: Setup, trace: seq<Event>, ev: Event, k: Key, item: Item)
    requires Origin(su, trace, k, item)
    ensures Origin(su, trace + [ev], k, item)
  {
    if i :| 0 <= i < |trace| && Fetches(su, trace[i], k, item) {
      assert (trace + [ev])[i] == trace[i];
    }
  }

  lemma ReplyOriginSurvives(su: Setup, trace: seq<Event>, ev: Event, k: Key, reply: Reply)
    requires ReplyOrigin(su, trace, k, reply)
    ensures ReplyOrigin(su, trace + [ev], k, reply)
  {
    match reply
    case Value(v) =>
      if Origin(su, trace, k, Item(v, false)) {
        OriginSurvives(su, trace, ev, k, Item(v, false));
      } else {
        OriginSurvives(su, trace, ev, k, Item(v, true));
      }
    case Fail(e) =>
      if i :| 0 <= i < |trace| && FailsWith(su, trace[i], k, e) {
        assert (trace + [ev])[i] == trace[i];
      } else {
        var v :| Origin(su, trace, k, Item(v, true));
        OriginSurvives(su, trace, ev, k, Item(v, true));
      }
  }

  lemma AllOriginSurvives(su: Setup, trace: seq<Event>, ev: Event, s: State)
    requires AllOrigin(su, trace, s)
    ensures AllOrigin(su, trace + [ev], s)
  {
    forall k | k in s.tiers.l1 ensures Origin(su, trace + [ev], k, ItemOf(s.tiers.l1[k])) {
      OriginSurvives(su, trace, ev, k, ItemOf(s.tiers.l1[k]));
    }
    forall k | k in s.tiers.l2 ensures Origin(su, trace + [ev], k, s.tiers.l2[k].item) {
      OriginSurvives(su, trace, ev, k, s.tiers.l2[k].item);
    }
    forall c | 0 <= c < |su.calls| ensures PhaseOrigin(su, trace + [ev], su.calls[c].key, s.phases[c]) {
      var k, p := su.calls[c].key, s.phases[c];
      if p.ProbePromote? || p.CheckPromote? || p.Store1? || p.Store2? {
        OriginSurvives(su, trace, ev, k, p.item);
      }
      if p.Store1? || p.Store2? || p.Land? || p.Done? {
        ReplyOriginSurvives(su, trace, ev, k, p.reply);
      }
    }
  }

  lemma CachedReplyOrigin(su: Setup, trace: seq<Event>, c: nat, item: Item)
    requires c < |su.calls| && Origin(su, trace, su.calls[c].key, item)
    ensures ReplyOrigin(su, trace, su.calls[c].key, ReplyOf(su.calls[c].api, item))
  {
    assert item == Item(item.value, item.negative);
    if item.negative && su.calls[c].api.Plain? {
      assert SomePlainCall(su, su.calls[c].key);
    }
  }

  lemma FetchedReplyOrigin(su: Setup, trace: seq<Event>, c: nat, result: Fetched)
    requires c < |su.calls| && trace != [] && trace[|trace| - 1] == FetchReturns(c, result)
    ensures ReplyOrigin(su, trace, su.calls[c].key, FetchReply(su.calls[c].api, result))
    ensures var stored := ToStore(su.calls[c].api, result);
      stored.Some? ==> Origin(su, trace, su.calls[c].key, stored.value)
  {
    var k, api, ev := su.calls[c].key, su.calls[c].api, trace[|trace| - 1];
    if ToStore(api, result).Some? {
      assert Fetches(su, ev, k, ToStore(api, result).value);
    }
    if FetchReply(api, result).Fail? {
      assert FailsWith(su, ev, k, FetchReply(api, result).err);
    }
  }

  /** What `ev` puts into the phase of its caller and into the tiers has an origin. */
  lemma NewThingsHaveOrigin(su: Setup, trace: seq<Event>, s: State, ev: Event)
    requires Enabled(su, s, ev) && ev.Protocol() && FlightsTracked(su, s)
    requires AllOrigin(su, trace, s) && trace != [] && trace[|trace| - 1] == ev
    ensures PhaseOrigin(su, trace, su.calls[ev.c].key, Next(su, s, ev).phases[ev.c])
    ensures TiersOrigin(su, trace, Next(su, s, ev).tiers)
  {
    var c := ev.c;
    var k, p := su.calls[c].key, s.phases[c];
    match ev
    case ReadL1(_) =>
      if L1Hit(s.tiers, k, s.now) {
        CachedReplyOrigin(su, trace, c, ItemOf(s.tiers.l1[k]));
      }
    case Promote(_) =>
      CachedReplyOrigin(su, trace, c, p.item);
      assert ItemOf(Promoted(su.cfg, s.now, p.item)) == p.item;
    case FetchReturns(_, result) =>
      FetchedReplyOrigin(su, trace, c, result);
    case StoreL1(_) =>
      var e := Next(su, s, ev).tiers.l1[k];
      assert ItemOf(e) == p.item;
    case StoreL2(_, _) =>
      assert PhaseOrigin(su, trace, k, p);
    case Wake(_) =>
      assert PhaseOrigin(su, trace, k, s.phases[p.leader]);
    case _ =>
  }

  lemma StepKeepsOrigin(su: Setup, trace: seq<Event>, s: State, ev: Event)
    requires Enabled(su, s, ev) && FlightsTracked(su, s) && AllOrigin(su, trace, s)
    ensures AllOrigin(su, trace + [ev], Next(su, s, ev))
  {
    AllOriginSurvives(su, trace, ev, s);
    if ev.Protocol() {
      NewThingsHaveOrigin(su, trace + [ev], s, ev);
      var s' := Next(su, s, ev);
      assert s'.phases == s.phases[ev.c := s'.phases[ev.c]];
    }
  }

  /**
   Provenance, over every interleaving: everything in either tier, and every reply a caller gets,
   was produced by a fetch for that very key or was there from the start.
   */
  lemma {:induction false} Provenance(su: Setup, trace: seq<Event>)
    requires IsRun(su, Start(su), trace)
    ensures AllOrigin(su, trace, Run(su, Start(su), trace))
  {
    if trace != [] {
      var before := trace[..|trace| - 1];
      Provenance(su, before);
      RunsKeepFlightsTracked(su, before);
      StepKeepsOrigin(su, before, Run(su, Start(su), before), trace[|trace| - 1]);
      assert before + [trace[|trace| - 1]] == trace;
    }
  }

  /**
   Negative entries: one appears in a tier only if a fetch for its key, made through
   `GetOrFetchWithNegative`, failed with not-found.
   */
  lemma NegativeEntryHasNotFoundFetch(su: Setup, trace: seq<Event>, k: Key)
    requires IsRun(su, Start(su), trace) && su.initial == Tiers(map[], map[])
    requires var t := Run(su, Start(su), trace).tiers;
      (k in t.l1 && t.l1[k].negative) || (k in t.l2 && t.l2[k].item.negative)
    ensures exists i ::
      && 0 <= i < |trace| && trace[i].FetchReturns? && trace[i].c < |su.calls|
      && su.calls[trace[i].c] == Call(k, WithNegative)
      && trace[i].result.Failed? && trace[i].result.err.Is(NotFound)
  {
    Provenance(su, trace);
    var t := Run(su, Start(su), trace).tiers;
    var item := if k in t.l1 && t.l1[k].negative then ItemOf(t.l1[k]) else t.l2[k].item;
    var i :| 0 <= i < |trace| && Fetches(su, trace[i], k, item);
  }

  // ---------------------------------------------------------- errors, and what a leader does

  /** A fetch for `k` returns the error `e`. */
  ghost predicate FetchFails(su: Setup, ev: Event, k: Key, e: Err) {
    ev.FetchReturns? && ev.c < |su.calls| && su.calls[ev.c].key == k && ev.result == Failed(e)
  }

  /** A fetch for `k`, made through the negative entry point, fails with some error that means not-found. */
  ghost predicate FetchMissing(su: Setup, ev: Event, k: Key) {
    && ev.FetchReturns? && ev.c < |su.calls| && su.calls[ev.c] == Call(k, WithNegative)
    && ev.result.Failed? && ev.result.err.Is(NotFound)
  }

  predicate StartsNegative(su: Setup, k: Key) {
    (k in su.initial.l1 && su.initial.l1[k].negative) || (k in su.initial.l2 && su.initial.l2[k].item.negative)
  }

  lemma NegativeOriginIsMissing(su: Setup, trace: seq<Event>, k: Key, v: Bytes)
    requires Origin(su, trace, k, Item(v, true))
    ensures StartsNegative(su, k) || exists i :: 0 <= i < |trace| && FetchMissing(su, trace[i], k)
  {
    if i :| 0 <= i < |trace| && Fetches(su, trace[i], k, Item(v, true)) {
      assert FetchMissing(su, trace[i], k);
    }
  }

  lemma FailureIsFetched(su: Setup, ev: Event, k: Key, e: Err)
    requires FailsWith(su, ev, k, e)
    ensures FetchFails(su, ev, k, e) || (e == Sentinel(NotFound) && FetchMissing(su, ev, k))
  {
  }

  /**
   Where an error comes from, in every run: it is the very error that a fetch for that key returned.
   Only the plain not-found error can stand for another one: for a fetch of that key, through the
   negative entry point, whose own error means not-found, or for a negative entry that was there at the start.
   */
  lemma ErrorsAreFetched(su: Setup, trace: seq<Event>, c: nat, e: Err)
    requires IsRun(su, Start(su), trace) && c < |su.calls|
    ensures |Run(su, Start(su), trace).phases| == |su.calls|
    ensures var p := Run(su, Start(su), trace).phases[c];
      p.Done? && p.reply == Fail(e) ==>
        var k := su.calls[c].key;
        || (exists i :: 0 <= i < |trace| && FetchFails(su, trace[i], k, e))
        || (e == Sentinel(NotFound) &&
            (StartsNegative(su, k) || exists i :: 0 <= i < |trace| && FetchMissing(su, trace[i], k)))
  {
    Provenance(su, trace);
    var k, p := su.calls[c].key, Run(su, Start(su), trace).phases[c];
    assert PhaseOrigin(su, trace, k, p);
    if p.Done? && p.reply == Fail(e) {
      if i :| 0 <= i < |trace| && FailsWith(su, trace[i], k, e) {
        FailureIsFetched(su, trace[i], k, e);
      } else {
        var v :| Origin(su, trace, k, Item(v, true));
        NegativeOriginIsMissing(su, trace, k, v);
      }
    }
  }

  /** Where a leader is once its fetch has returned: about to store `item`, or done storing, with `reply`. */
  predicate Concludes(p: Phase, item: Option<Item>, reply: Reply) {
    match p
    case Store1(i, r) => item == Some(i) && r == reply
    case Store2(i, r) => item == Some(i) && r == reply
    case Land(r) => r == reply
    case Done(r, cached) => r == reply && !cached
    case _ => false
  }

  lemma ConclusionStays(su: Setup, s: State, ev: Event, c: nat, item: Option<Item>, reply: Reply)
    requires Enabled(su, s, ev) && c < |s.phases| && Concludes(s.phases[c], item, reply)
    ensures c < |Next(su, s, ev).phases| && Concludes(Next(su, s, ev).phases[c], item, reply)
  {
  }

  /** The reply of a leader whose fetch returns `result`, and what it has to store. */
  predicate ConcludesFetch(api: Api, result: Fetched, p: Phase) {
    match result
    case Got(v) => Concludes(p, Some(Item(v, false)), Value(v))
    case Failed(e) =>
      if api.WithNegative? && e.Is(NotFound) then Concludes(p, Some(Item([], true)), Fail(Sentinel(NotFound)))
      else Concludes(p, None, Fail(e))
  }

  lemma FetchReturnConcludes(su: Setup, s: State, c: nat, result: Fetched)
    requires Enabled(su, s, FetchReturns(c, result))
    ensures var s' := Next(su, s, FetchReturns(c, result));
      c < |s'.phases| && ConcludesFetch(su.calls[c].api, result, s'.phases[c])
  {
  }

  /**
   What a fetch comes to, in every run: from its return on, its leader has exactly this reply. A value
   is handed over and stored. An error is handed over as it is and nothing is stored, except that
   through the negative entry point an error that means not-found becomes the plain one and is stored as absence.
   */
  lemma {:induction false} LeaderConcludes(su: Setup, trace: seq<Event>, i: nat, n: nat)
    requires IsRun(su, Start(su), trace) && i < n <= |trace| && trace[i].FetchReturns?
    ensures |StatesOf(su, trace)| == |trace| + 1 && trace[i].c < |su.calls|
    ensures var s := StatesOf(su, trace)[n];
      trace[i].c < |s.phases| && ConcludesFetch(su.calls[trace[i].c].api, trace[i].result, s.phases[trace[i].c])
  {
    RunHasStates(su, trace);
    var states := StatesOf(su, trace);
    assert Enabled(su, states[n - 1], trace[n - 1]);
    if i == n - 1 {
      FetchReturnConcludes(su, states[i], trace[i].c, trace[i].result);
    } else {
      assert Enabled(su, states[i], trace[i]);
      LeaderConcludes(su, trace, i, n - 1);
      var api, result, p := su.calls[trace[i].c].api, trace[i].result, states[n - 1].phases[trace[i].c];
      match result
      case Got(v) => ConclusionStays(su, states[n - 1], trace[n - 1], trace[i].c, Some(Item(v, false)), Value(v));
      case Failed(e) =>
        if api.WithNegative? && e.Is(NotFound) {
          ConclusionStays(su, states[n - 1], trace[n - 1], trace[i].c, Some(Item([], true)), Fail(Sentinel(NotFound)));
        } else {
          ConclusionStays(su, states[n - 1], trace[n - 1], trace[i].c, None, Fail(e));
        }
    }
  }

  /** What the two stores write, for a positive item and for absence, and that they touch no other key. */
  lemma StoresWrite(su: Setup, s: State, ev: Event, k: Key)
    requires Enabled(su, s, ev) && (ev.StoreL1? || ev.StoreL2?) && su.calls[ev.c].key == k
    ensures var t, t', item := s.tiers, Next(su, s, ev).tiers, s.phases[ev.c].item;
      var ttl := if item.negative then su.cfg.negativeTTL else su.cfg.defaultTTL;
      && (ev.StoreL1? ==> t' == Tiers(t.l1[k := Entry(item.value, s.now + ttl, item.negative)], t.l2))
      && (ev.StoreL2? && ev.stored ==>
            t' == Tiers(t.l1, t.l2[k := Remote(item, if ttl > 0 then Some(s.now + ttl) else None)]))
      && (ev.StoreL2? && !ev.stored ==> t' == t)
  {
  }

  /** What a look at the cache tells a caller: absence only through the negative entry point, else the value. */
  lemma CacheHitTells(su: Setup, s: State, ev: Event)
    requires Enabled(su, s, ev) && (ev.ReadL1? || ev.Promote?)
    requires ev.ReadL1? ==> L1Hit(s.tiers, su.calls[ev.c].key, s.now)
    ensures var item := if ev.ReadL1? then ItemOf(s.tiers.l1[su.calls[ev.c].key]) else s.phases[ev.c].item;
      var p := Next(su, s, ev).phases[ev.c];
      var probing := s.phases[ev.c].Probe1? || s.phases[ev.c].ProbePromote?;
      && (if probing then p.Done? && p.cached else p.Land?)
      && p.reply == if su.calls[ev.c].api.WithNegative? && item.negative then Fail(Sentinel(NotFound))
                    else Value(item.value)
  {
  }

  // ------------------------------------------------------ success values, exactly

  /** Every success so far hands over a value that a fetch for its key produced. */
  ghost predicate SuccessesFetched(su: Setup, trace: seq<Event>)
    requires IsRun(su, Start(su), trace)
  {
    var ps := Run(su, Start(su), trace).phases;
    forall c :: 0 <= c < |ps| && c < |su.calls| && ps[c].Done? && ps[c].reply.Value? ==>
      exists i :: 0 <= i < |trace| && Fetches(su, trace[i], su.calls[c].key, Item(ps[c].reply.value, false))
  }

  /** One key is asked for through both entry points. */
  predicate MixesEntryPoints(su: Setup) {
    exists w, p :: 0 <= w < |su.calls| && 0 <= p < |su.calls| && Mix(su, w, p)
  }

  predicate Mix(su: Setup, w: nat, p: nat)
    requires w < |su.calls| && p < |su.calls|
  {
    su.calls[w].key == su.calls[p].key && su.calls[w].api.WithNegative? && su.calls[p].api.Plain?
  }

  /** A negative entry can be read at some moment after its store. */
  predicate NegativesReadable(cfg: Config) {
    cfg.negativeTTL >= 0 || cfg.UsesL2()
  }

  lemma UnmixedSuccessesFetched(su: Setup, trace: seq<Event>)
    requires IsRun(su, Start(su), trace) && su.initial == Tiers(map[], map[])
    ensures MixesEntryPoints(su) || SuccessesFetched(su, trace)
  {
    Provenance(su, trace);
    var ps := Run(su, Start(su), trace).phases;
    forall c | 0 <= c < |ps| && c < |su.calls| && ps[c].Done? && ps[c].reply.Value?
      ensures MixesEntryPoints(su) || Origin(su, trace, su.calls[c].key, Item(ps[c].reply.value, false))
    {
      var k, v := su.calls[c].key, ps[c].reply.value;
      assert PhaseOrigin(su, trace, k, ps[c]);
      if !Origin(su, trace, k, Item(v, false)) {
        var p :| 0 <= p < |su.calls| && su.calls[p].key == k && su.calls[p].api.Plain?;
        var i :| 0 <= i < |trace| && Fetches(su, trace[i], k, Item(v, true));
        assert Mix(su, trace[i].c, p);
      }
    }
  }

  // With a negative TTL in the past and no second tier in use, a negative entry is never read at all.

  ghost predicate ValueFetched(su: Setup, trace: seq<Event>, k: Key, reply: Reply) {
    reply.Value? ==> Origin(su, trace, k, Item(reply.value, false))
  }

  ghost predicate PhaseUnmixed(su: Setup, trace: seq<Event>, k: Key, p: Phase) {
    && !p.ProbePromote? && !p.CheckPromote? && !p.Store2?
    && (p.Store1? || p.Land? || p.Done? ==> ValueFetched(su, trace, k, p.reply))
  }

  ghost predicate NegativesUnread(su: Setup, trace: seq<Event>, s: State) {
    && s.tiers.l2 == map[]
    && (forall k :: k in s.tiers.l1 && s.tiers.l1[k].negative ==> s.tiers.l1[k].IsExpired(s.now))
    && |s.phases| == |su.calls|
    && (forall c :: 0 <= c < |su.calls| ==> PhaseUnmixed(su, trace, su.calls[c].key, s.phases[c]))
  }

  lemma UnreadSurvives(su: Setup, trace: seq<Event>, ev: Event, s: State)
    requires NegativesUnread(su, trace, s)
    ensures NegativesUnread(su, trace + [ev], s)
  {
    forall c | 0 <= c < |su.calls| ensures PhaseUnmixed(su, trace + [ev], su.calls[c].key, s.phases[c]) {
      var k, p := su.calls[c].key, s.phases[c];
      if (p.Store1? || p.Land? || p.Done?) && p.reply.Value? {
        OriginSurvives(su, trace, ev, k, Item(p.reply.value, false));
      }
    }
  }

  lemma NewPhaseUnmixed(su: Setup, trace: seq<Event>, s: State, ev: Event)
    requires Enabled(su, s, ev) && ev.Protocol() && FlightsTracked(su, s) && !su.cfg.UsesL2()
    requires AllOrigin(su, trace, s) && NegativesUnread(su, trace, s) && trace != [] && trace[|trace| - 1] == ev
    ensures PhaseUnmixed(su, trace, su.calls[ev.c].key, Next(su, s, ev).phases[ev.c])
  {
    var c := ev.c;
    var k, p := su.calls[c].key, s.phases[c];
    match ev
    case ReadL1(_) =>
      if L1Hit(s.tiers, k, s.now) {
        assert ItemOf(s.tiers.l1[k]) == Item(s.tiers.l1[k].value, false);
      }
    case FetchReturns(_, result) =>
      if result.Got? {
        assert Fetches(su, ev, k, Item(result.value, false));
      }
    case Wake(_) =>
      assert PhaseUnmixed(su, trace, k, s.phases[p.leader]);
    case _ =>
  }

  lemma StepKeepsUnread(su: Setup, trace: seq<Event>, s: State, ev: Event)
    requires Enabled(su, s, ev) && FlightsTracked(su, s) && !NegativesReadable(su.cfg)
    requires AllOrigin(su, trace, s) && NegativesUnread(su, trace, s)
    ensures NegativesUnread(su, trace + [ev], Next(su, s, ev))
  {
    UnreadSurvives(su, trace, ev, s);
    if ev.Protocol() {
      AllOriginSurvives(su, trace, ev, s);
      NewPhaseUnmixed(su, trace + [ev], s, ev);
      TiersStayUnread(su, trace, s, ev);
      var s' := Next(su, s, ev);
      assert s'.phases == s.phases[ev.c := s'.phases[ev.c]];
    }
  }

  lemma TiersStayUnread(su: Setup, trace: seq<Event>, s: State, ev: Event)
    requires Enabled(su, s, ev) && ev.Protocol() && !NegativesReadable(su.cfg) && NegativesUnread(su, trace, s)
    ensures var s' := Next(su, s, ev);
      && s'.tiers.l2 == map[] && s'.now == s.now
      && (forall k :: k in s'.tiers.l1 && s'.tiers.l1[k].negative ==> s'.tiers.l1[k].IsExpired(s'.now))
  {
    assert PhaseUnmixed(su, trace, su.calls[ev.c].key, s.phases[ev.c]);
  }

  lemma {:induction false} RunsLeaveNegativesUnread(su: Setup, trace: seq<Event>)
    requires IsRun(su, Start(su), trace) && su.initial == Tiers(map[], map[]) && !NegativesReadable(su.cfg)
    ensures NegativesUnread(su, trace, Run(su, Start(su), trace))
  {
    if trace != [] {
      var before := trace[..|trace| - 1];
      RunsLeaveNegativesUnread(su, before);
      RunsKeepFlightsTracked(su, before);
      Provenance(su, before);
      StepKeepsUnread(su, before, Run(su, Start(su), before), trace[|trace| - 1]);
      assert before + [trace[|trace| - 1]] == trace;
    }
  }

  lemma UnreadableSuccessesFetched(su: Setup, trace: seq<Event>)
    requires IsRun(su, Start(su), trace) && su.initial == Tiers(map[], map[]) && !NegativesReadable(su.cfg)
    ensures SuccessesFetched(su, trace)
  {
    RunsLeaveNegativesUnread(su, trace);
    var ps := Run(su, Start(su), trace).phases;
    forall c | 0 <= c < |ps| && c < |su.calls| && ps[c].Done? && ps[c].reply.Value?
      ensures Origin(su, trace, su.calls[c].key, Item(ps[c].reply.value, false))
    {
      assert PhaseUnmixed(su, trace, su.calls[c].key, ps[c]);
    }
  }

  // The run in which a caller of `GetOrFetch` is handed the empty value of a negative entry.

  /** The values that fetches returned, in order. */
  function Values(trace: seq<Event>): seq<Bytes> {
    if trace == [] then []
    else Values(trace[..|trace| - 1]) + FetchedBy(trace[|trace| - 1])
  }

  function FetchedBy(ev: Event): seq<Bytes> {
    if ev.FetchReturns? && ev.result.Got? then [ev.result.value] else []
  }

  /** The event is no failing access to the second tier. */
  predicate Works(ev: Event) {
    (ev.ReadL2? ==> ev.readable) && (ev.StoreL2? ==> ev.stored)
  }

  /** `trace` leads to `s` from the start, no access to a tier fails, and exactly these values are fetched. */
  ghost predicate Reaches(su: Setup, trace: seq<Event>, s: State, values: seq<Bytes>) {
    && IsRun(su, Start(su), trace) && Run(su, Start(su), trace) == s && Values(trace) == values
    && forall i :: 0 <= i < |trace| ==> Works(trace[i])
  }

  lemma StartReached(su: Setup)
    ensures Reaches(su, [], Start(su), [])
  {
  }

  lemma Take(su: Setup, trace: seq<Event>, s: State, values: seq<Bytes>, ev: Event)
    returns (trace': seq<Event>, s': State)
    requires Reaches(su, trace, s, values) && Enabled(su, s, ev) && Works(ev)
    ensures s' == Next(su, s, ev) && Reaches(su, trace', s', values + FetchedBy(ev)) && trace <= trace'
  {
    trace', s' := trace + [ev], Next(su, s, ev);
    assert trace'[..|trace'| - 1] == trace;
  }

  /** A step that is no successful fetch. */
  lemma Move(su: Setup, trace: seq<Event>, s: State, values: seq<Bytes>, ev: Event)
    returns (trace': seq<Event>, s': State)
    requires Reaches(su, trace, s, values) && Enabled(su, s, ev) && Works(ev)
    requires ev.FetchReturns? ==> ev.result.Failed?
    ensures s' == Next(su, s, ev) && Reaches(su, trace', s', values) && trace <= trace'
  {
    trace', s' := Take(su, trace, s, values, ev);
    assert values + [] == values;
  }

  ghost predicate Among(su: Setup, s: State, c: nat) {
    |s.phases| == |su.calls| && c < |su.calls|
  }

  /** A caller whose key is in no tier misses its probe. */
  lemma MissProbe(su: Setup, trace: seq<Event>, s: State, values: seq<Bytes>, c: nat)
    returns (trace': seq<Event>, s': State)
    requires Reaches(su, trace, s, values) && Among(su, s, c) && s.phases[c].Probe1?
    requires s.tiers == Tiers(map[], map[]) && c !in s.cancelled
    ensures Reaches(su, trace', s', values) && s' == At(s, c, Enter)
  {
    trace', s' := Move(su, trace, s, values, ReadL1(c));
    assert s'.tiers.l1 == map[];
    if su.cfg.hasL2 {
      trace', s' := Move(su, trace', s', values, ReadL2(c, true));
    }
  }

  /** It opens a flight, misses the double check as well, and fetches. */
  lemma OpenFlight(su: Setup, trace: seq<Event>, s: State, values: seq<Bytes>, c: nat)
    returns (trace': seq<Event>, s': State)
    requires Reaches(su, trace, s, values) && Among(su, s, c) && s.phases[c].Enter?
    requires s.tiers == Tiers(map[], map[]) && s.flights == map[]
    ensures Reaches(su, trace', s', values) && s' == At(s.(flights := map[su.calls[c].key := c]), c, Fetching)
  {
    trace', s' := Move(su, trace, s, values, Join(c));
    trace', s' := Move(su, trace', s', values, ReadL1(c));
    assert s'.tiers.l1 == map[];
    if su.cfg.hasL2 {
      trace', s' := Move(su, trace', s', values, ReadL2(c, true));
    }
  }

  const ABSENT := Item([], true)
  const MISSING := Fail(Sentinel(NotFound))

  /** Its fetch fails with not-found. */
  lemma FetchAbsence(su: Setup, trace: seq<Event>, s: State, values: seq<Bytes>, c: nat)
    returns (trace': seq<Event>, s': State)
    requires Reaches(su, trace, s, values) && Among(su, s, c) && s.phases[c].Fetching?
    requires su.calls[c].api.WithNegative?
    ensures Reaches(su, trace', s', values) && s' == At(s, c, Store1(ABSENT, MISSING))
  {
    var failed := Failed(Sentinel(NotFound));
    assert failed.err.Is(NotFound);
    trace', s' := Move(su, trace, s, values, FetchReturns(c, failed));
  }

  /** It stores in the first tier. */
  lemma StoreNear(su: Setup, trace: seq<Event>, s: State, values: seq<Bytes>, c: nat)
    returns (trace': seq<Event>, s': State)
    requires Reaches(su, trace, s, values) && Among(su, s, c) && s.phases[c].Store1?
    ensures Reaches(su, trace', s', values)
    ensures var k, item, reply := su.calls[c].key, s.phases[c].item, s.phases[c].reply;
      var e := Entry(item.value, s.now + su.cfg.TTL(item.negative), item.negative);
      s' == At(s.(tiers := s.tiers.(l1 := s.tiers.l1[k := e])), c,
               if su.cfg.UsesL2() then Store2(item, reply) else Land(reply))
  {
    trace', s' := Move(su, trace, s, values, StoreL1(c));
  }

  /** The other caller reads the entry before it is expired, in the first tier. */
  lemma ReadNear(su: Setup, trace: seq<Event>, s: State, values: seq<Bytes>, c: nat)
    returns (trace': seq<Event>, s': State)
    requires Reaches(su, trace, s, values) && Among(su, s, c) && s.phases[c].Probe1?
    requires L1Hit(s.tiers, su.calls[c].key, s.now)
    ensures Reaches(su, trace', s', values) && trace <= trace'
    ensures s' == At(s, c, Done(ReplyOf(su.calls[c].api, ItemOf(s.tiers.l1[su.calls[c].key])), true))
  {
    trace', s' := Move(su, trace, s, values, ReadL1(c));
  }

  /** Or it reads the entry in the second tier, and is about to promote it. */
  lemma ReadFar(su: Setup, trace: seq<Event>, s: State, values: seq<Bytes>, c: nat)
    returns (trace': seq<Event>, s': State)
    requires Reaches(su, trace, s, values) && Among(su, s, c) && s.phases[c].Probe1? && c !in s.cancelled
    requires !L1Hit(s.tiers, su.calls[c].key, s.now) && L2Hit(su.cfg, s.tiers, su.calls[c].key, s.now)
    ensures Reaches(su, trace', s', values) && trace <= trace'
    ensures var k := su.calls[c].key;
      s' == At(s.(tiers := s.tiers.(l1 := s.tiers.l1 - {k})), c, ProbePromote(s.tiers.l2[k].item))
  {
    trace', s' := Move(su, trace, s, values, ReadL1(c));
    trace', s' := Move(su, trace', s', values, ReadL2(c, true));
  }

  /** A caller promotes what it has read. */
  lemma PromoteRead(su: Setup, trace: seq<Event>, s: State, values: seq<Bytes>, c: nat)
    returns (trace': seq<Event>, s': State)
    requires Reaches(su, trace, s, values) && Among(su, s, c) && s.phases[c].ProbePromote?
    ensures Reaches(su, trace', s', values) && trace <= trace'
    ensures var k, item := su.calls[c].key, s.phases[c].item;
      s' == At(s.(tiers := s.tiers.(l1 := s.tiers.l1[k := Promoted(su.cfg, s.now, item)])), c,
               Done(ReplyOf(su.calls[c].api, item), true))
  {
    trace', s' := Move(su, trace, s, values, Promote(c));
  }

  /**
   For any two callers of one key through different entry points, if negative entries can be read at
   all: a run from empty tiers in which no access fails and no fetch succeeds, and still the caller of
   `GetOrFetch` is told that it succeeded, from the cache, with the empty value.
   */
  lemma AbsenceServedAsSuccess(su: Setup, w: nat, p: nat) returns (trace: seq<Event>, s: State)
    requires w < |su.calls| && p < |su.calls| && Mix(su, w, p)
    requires su.initial == Tiers(map[], map[]) && NegativesReadable(su.cfg)
    ensures Reaches(su, trace, s, []) && |s.phases| == |su.calls| && s.phases[p] == Done(Value([]), true)
    ensures !SuccessesFetched(su, trace)
  {
    trace, s := [], Start(su);
    trace, s := MissProbe(su, trace, s, [], w);
    trace, s := OpenFlight(su, trace, s, [], w);
    trace, s := FetchAbsence(su, trace, s, [], w);
    trace, s := StoreNear(su, trace, s, [], w);
    if su.cfg.negativeTTL >= 0 {
      trace, s := ReadNear(su, trace, s, [], p);
    } else {
      trace, s := Move(su, trace, s, [], StoreL2(w, true));
      trace, s := ReadFar(su, trace, s, [], p);
      trace, s := PromoteRead(su, trace, s, [], p);
    }
    NothingFetched(su, trace, s, p);
  }

  lemma {:induction false} NoneGot(trace: seq<Event>, i: nat)
    requires Values(trace) == [] && i < |trace| && trace[i].FetchReturns?
    ensures trace[i].result.Failed?
  {
    if i < |trace| - 1 {
      NoneGot(trace[..|trace| - 1], i);
    }
  }

  lemma NothingFetched(su: Setup, trace: seq<Event>, s: State, p: nat)
    requires Reaches(su, trace, s, []) && p < |s.phases| == |su.calls| && s.phases[p].Done? && s.phases[p].reply.Value?
    ensures !SuccessesFetched(su, trace)
  {
    var k, v := su.calls[p].key, s.phases[p].reply.value;
    forall i | 0 <= i < |trace| ensures !Fetches(su, trace[i], k, Item(v, false)) {
      if trace[i].FetchReturns? {
        NoneGot(trace, i);
      }
    }
  }

  /**
   Exactly when a success is always a fetched value: from empty tiers, every run hands over only values
   that a fetch produced if and only if no key is asked for through both entry points, or negative
   entries can never be read.
   */
  lemma SuccessesFetchedExactlyWhen(su: Setup)
    requires su.initial == Tiers(map[], map[])
    ensures (forall trace :: IsRun(su, Start(su), trace) ==> SuccessesFetched(su, trace))
      <==> !(MixesEntryPoints(su) && NegativesReadable(su.cfg))
  {
    if MixesEntryPoints(su) && NegativesReadable(su.cfg) {
      var w, p :| 0 <= w < |su.calls| && 0 <= p < |su.calls| && Mix(su, w, p);
      var trace, s := AbsenceServedAsSuccess(su, w, p);
    } else {
      forall trace | IsRun(su, Start(su), trace) ensures SuccessesFetched(su, trace) {
        UnmixedSuccessesFetched(su, trace);
        if !NegativesReadable(su.cfg) {
          UnreadableSuccessesFetched(su, trace);
        }
      }
    }
  }

  // An older item replaces a newer one: a caller promotes what it read before the newer item was stored.

  /** The leader `c` fetches `v` and stores it in both tiers. */
  lemma FetchAndStore(su: Setup, trace: seq<Event>, s: State, values: seq<Bytes>, c: nat, v: Bytes)
    returns (trace': seq<Event>, s': State)
    requires Reaches(su, trace, s, values) && Among(su, s, c) && s.phases[c].Fetching? && su.cfg.UsesL2()
    ensures Reaches(su, trace', s', values + [v])
    ensures var k, ttl := su.calls[c].key, su.cfg.defaultTTL;
      var near, far := Entry(v, s.now + ttl, false), Remote(Item(v, false), RemoteExpiry(s.now, ttl));
      s' == At(s.(tiers := Tiers(s.tiers.l1[k := near], s.tiers.l2[k := far])), c, Land(Value(v)))
  {
    hide Reaches;
    trace', s' := Take(su, trace, s, values, FetchReturns(c, Got(v)));
    trace', s' := StoreNear(su, trace', s', values + [v], c);
    trace', s' := Move(su, trace', s', values + [v], StoreL2(c, true));
  }

  /** Its flight, the only one, ends. */
  lemma EndFlight(su: Setup, trace: seq<Event>, s: State, values: seq<Bytes>, c: nat)
    returns (trace': seq<Event>, s': State)
    requires Reaches(su, trace, s, values) && Among(su, s, c) && s.phases[c].Land?
    requires s.flights == map[su.calls[c].key := c]
    ensures Reaches(su, trace', s', values)
    ensures s' == At(s.(flights := map[]), c, Done(s.phases[c].reply, false))
  {
    trace', s' := Move(su, trace, s, values, Close(c));
    assert s'.flights == map[];
  }

  /** A whole flight of `c` for a key that no tier holds, up to the end of the flight. */
  lemma FetchFresh(su: Setup, trace: seq<Event>, s: State, values: seq<Bytes>, c: nat, v: Bytes)
    returns (trace': seq<Event>, s': State)
    requires Reaches(su, trace, s, values) && Among(su, s, c) && s.phases[c].Probe1? && su.cfg.UsesL2()
    requires s.tiers == Tiers(map[], map[]) && s.flights == map[] && c !in s.cancelled
    ensures Reaches(su, trace', s', values + [v])
    ensures var k, ttl := su.calls[c].key, su.cfg.defaultTTL;
      var near, far := Entry(v, s.now + ttl, false), Remote(Item(v, false), RemoteExpiry(s.now, ttl));
      s' == At(s.(tiers := Tiers(map[k := near], map[k := far])), c, Done(Value(v), false))
  {
    hide Reaches;
    trace', s' := MissProbe(su, trace, s, values, c);
    trace', s' := OpenFlight(su, trace', s', values, c);
    trace', s' := FetchAndStore(su, trace', s', values, c, v);
    trace', s' := EndFlight(su, trace', s', values + [v], c);
  }

  /** The first tier, or both, lose what they hold for `k`, which is all they hold. */
  lemma LoseAll(su: Setup, trace: seq<Event>, s: State, values: seq<Bytes>, k: Key, both: bool)
    returns (trace': seq<Event>, s': State)
    requires Reaches(su, trace, s, values) && s.tiers.l1.Keys <= {k} && s.tiers.l2.Keys <= {k}
    ensures Reaches(su, trace', s', values) && trace <= trace'
    ensures s' == s.(tiers := Tiers(map[], if both then map[] else s.tiers.l2))
  {
    trace', s' := Move(su, trace, s, values, Event.Lose({k}, if both then {k} else {}));
    assert s.tiers.l1 - {k} == map[] && s.tiers.l2 - {k} == map[] && s.tiers.l2 - {} == s.tiers.l2;
  }

  lemma Pause(su: Setup, trace: seq<Event>, s: State, values: seq<Bytes>, elapsed: nat)
    returns (trace': seq<Event>, s': State)
    requires Reaches(su, trace, s, values)
    ensures Reaches(su, trace', s', values) && trace <= trace'
    ensures s' == s.(now := s.now + elapsed)
  {
    trace', s' := Move(su, trace, s, values, Tick(elapsed));
  }

  ghost predicate SameKey(su: Setup, cs: seq<nat>) {
    && (forall i :: 0 <= i < |cs| ==> cs[i] < |su.calls|)
    && (forall i, j :: 0 <= i < j < |cs| ==> cs[i] != cs[j] && su.calls[cs[i]].key == su.calls[cs[j]].key)
  }

  /**
   Agreement is lost between the steps of one Get. For any four callers of one key, through any entry
   points: a run in which time stands still, no access fails and no write is lost. `a` is fetched and
   stored, then `b` is, in both tiers. But a caller that had read `a` in the second tier before
   promotes it now, over `b`: the first tier goes on serving `a` while the second holds `b`.
   */
  lemma OlderReplacesNewer(su: Setup, cs: seq<nat>, a: Bytes, b: Bytes) returns (trace: seq<Event>, s: State)
    requires |cs| == 4 && SameKey(su, cs)
    requires su.initial == Tiers(map[], map[]) && su.cfg.UsesL2() && su.cfg.promotionTTL >= 0
    ensures Reaches(su, trace, s, [a, b]) && |s.phases| == |su.calls|
    ensures s.phases[cs[0]] == Done(Value(a), false) && s.phases[cs[1]] == Done(Value(b), false)
    ensures s.phases[cs[3]] == Done(Value(a), true)
    ensures var k := su.calls[cs[0]].key;
      L1Hit(s.tiers, k, s.now) && ItemOf(s.tiers.l1[k]) == Item(a, false) &&
      L2Hit(su.cfg, s.tiers, k, s.now) && s.tiers.l2[k].item == Item(b, false)
  {
    var k := su.calls[cs[0]].key;
    trace, s := [], Start(su);
    StartReached(su);
    hide Reaches, Enabled, Next;
    trace, s := FetchFresh(su, trace, s, [], cs[0], a);
    assert [] + [a] == [a] && [a] + [b] == [a, b];
    trace, s := LoseAll(su, trace, s, [a], k, false);
    trace, s := ReadFar(su, trace, s, [a], cs[2]);
    trace, s := LoseAll(su, trace, s, [a], k, true);
    trace, s := FetchFresh(su, trace, s, [a], cs[1], b);
    trace, s := PromoteRead(su, trace, s, [a, b], cs[2]);
    trace, s := ReadNear(su, trace, s, [a, b], cs[3]);
  }

  /** What `p` has read is promoted `delay` later, and served to `q` for as long as the promotion lasts. */
  lemma PromoteLate(su: Setup, trace: seq<Event>, s: State, values: seq<Bytes>, p: nat, q: nat, delay: nat)
    returns (trace': seq<Event>, s': State)
    requires Reaches(su, trace, s, values) && Among(su, s, p) && Among(su, s, q) && su.cfg.promotionTTL >= 0
    requires su.calls[p].key == su.calls[q].key && s.phases[q].Probe1?
    requires s.phases[p].ProbePromote? && !s.phases[p].item.negative
    ensures Reaches(su, trace', s', values) && trace <= trace' && Among(su, s', q)
    ensures s'.now == s.now + delay + su.cfg.promotionTTL
    ensures s'.phases[q] == Done(Value(s.phases[p].item.value), true)
  {
    hide Reaches, Enabled, Next;
    trace', s' := Pause(su, trace, s, values, delay);
    trace', s' := PromoteRead(su, trace', s', values, p);
    trace', s' := Pause(su, trace', s', values, su.cfg.promotionTTL);
    trace', s' := ReadNear(su, trace', s', values, q);
  }

  /** Once the first-tier copy is lost, `p` reads the other one at the end of its TTL. */
  lemma ReadLate(su: Setup, trace: seq<Event>, s: State, values: seq<Bytes>, p: nat, item: Item, ttl: nat)
    returns (trace': seq<Event>, s': State)
    requires Reaches(su, trace, s, values) && Among(su, s, p) && s.phases[p].Probe1? && p !in s.cancelled
    requires var k := su.calls[p].key;
      s.tiers.l1.Keys <= {k} && s.tiers.l2 == map[k := Remote(item, Some(s.now + ttl))] && su.cfg.hasL2
    ensures Reaches(su, trace', s', values) && trace <= trace' && s'.now == s.now + ttl
    ensures s'.phases == s.phases[p := ProbePromote(item)]
  {
    hide Reaches, Enabled, Next;
    trace', s' := LoseAll(su, trace, s, values, su.calls[p].key, false);
    trace', s' := Pause(su, trace', s', values, ttl);
    trace', s' := ReadFar(su, trace', s', values, p);
  }

  /**
   The delay counts in full. For any three callers of one key, any value and any delay: in some run from
   empty tiers without failing accesses the value is fetched and stored by time 0, its only fetch, and
   served from the first tier TTL + promotion TTL + delay later.
   */
  lemma StepStalenessReached(su: Setup, cs: seq<nat>, v: Bytes, delay: nat)
    returns (first: seq<Event>, stored: State, trace: seq<Event>, s: State)
    requires |cs| == 3 && SameKey(su, cs) && su.initial == Tiers(map[], map[])
    requires su.cfg.UsesL2() && su.cfg.defaultTTL > 0 && su.cfg.promotionTTL >= 0
    ensures Reaches(su, first, stored, [v]) && Among(su, stored, cs[0])
    ensures stored.now == 0 && stored.phases[cs[0]] == Done(Value(v), false)
    ensures first <= trace && Reaches(su, trace, s, [v]) && Among(su, s, cs[2])
    ensures s.now == su.cfg.defaultTTL + su.cfg.promotionTTL + delay
    ensures s.phases[cs[2]] == Done(Value(v), true)
  {
    StartReached(su);
    hide Reaches, Enabled, Next;
    first, stored := FetchFresh(su, [], Start(su), [], cs[0], v);
    assert su.calls[cs[1]].key == su.calls[cs[0]].key && stored.phases[cs[1]].Probe1?;
    assert stored.tiers.l2 == map[su.calls[cs[1]].key := Remote(Item(v, false), Some(0 + su.cfg.defaultTTL))];
    assert [] + [v] == [v];
    assert stored.tiers.l1.Keys <= {su.calls[cs[1]].key} && cs[1] !in stored.cancelled && stored.now == 0;
    trace, s := ReadLate(su, first, stored, [v], cs[1], Item(v, false), su.cfg.defaultTTL);
    trace, s := PromoteLate(su, trace, s, [v], cs[1], cs[2], delay);
  }

  // ------------------------------------------------------ keys with one value only

  /** Every fetch for `k` that returns in the run succeeds with `v`. */
  ghost predicate OnlyFetches(su: Setup, trace: seq<Event>, k: Key, v: Bytes) {
    forall i :: 0 <= i < |trace| && trace[i].FetchReturns? ==>
      trace[i].c < |su.calls| && su.calls[trace[i].c].key == k ==> trace[i].result == Got(v)
  }

  /** What the tiers hold for `k`, and every reply to a caller of `k`, is the success `v`. */
  ghost predicate HoldsOnly(su: Setup, s: State, k: Key, v: Bytes) {
    && (k in s.tiers.l1 ==> ItemOf(s.tiers.l1[k]) == Item(v, false))
    && (k in s.tiers.l2 ==> s.tiers.l2[k].item == Item(v, false))
    && |s.phases| == |su.calls|
    && forall c :: 0 <= c < |su.calls| && su.calls[c].key == k && s.phases[c].Done? ==> s.phases[c].reply == Value(v)
  }

  lemma OneOrigin(su: Setup, trace: seq<Event>, k: Key, v: Bytes, item: Item)
    requires su.initial == Tiers(map[], map[]) && OnlyFetches(su, trace, k, v) && Origin(su, trace, k, item)
    ensures item == Item(v, false)
  {
    var i :| 0 <= i < |trace| && Fetches(su, trace[i], k, item);
  }

  lemma OneReply(su: Setup, trace: seq<Event>, k: Key, v: Bytes, reply: Reply)
    requires su.initial == Tiers(map[], map[]) && OnlyFetches(su, trace, k, v) && ReplyOrigin(su, trace, k, reply)
    ensures reply == Value(v)
  {
    match reply
    case Value(u) =>
      OneOrigin(su, trace, k, v, if Origin(su, trace, k, Item(u, false)) then Item(u, false) else Item(u, true));
    case Fail(e) =>
      if i :| 0 <= i < |trace| && FailsWith(su, trace[i], k, e) {
        assert false;
      } else {
        var u :| Origin(su, trace, k, Item(u, true));
        OneOrigin(su, trace, k, v, Item(u, true));
      }
  }

  /** If all fetches for a key succeed with the same value, nobody is ever handed anything else for it. */
  lemma OneValueEverywhere(su: Setup, trace: seq<Event>, k: Key, v: Bytes)
    requires IsRun(su, Start(su), trace) && su.initial == Tiers(map[], map[]) && OnlyFetches(su, trace, k, v)
    ensures HoldsOnly(su, Run(su, Start(su), trace), k, v)
  {
    Provenance(su, trace);
    var s := Run(su, Start(su), trace);
    if k in s.tiers.l1 {
      OneOrigin(su, trace, k, v, ItemOf(s.tiers.l1[k]));
    }
    if k in s.tiers.l2 {
      OneOrigin(su, trace, k, v, s.tiers.l2[k].item);
    }
    forall c | 0 <= c < |su.calls| && su.calls[c].key == k && s.phases[c].Done?
      ensures s.phases[c].reply == Value(v)
    {
      assert PhaseOrigin(su, trace, k, s.phases[c]);
      OneReply(su, trace, k, v, s.phases[c].reply);
    }
  }

  /** A fetch returns `v`, its leader stores it, and `elapsed` later another caller looks. */
  function ReturnAndLook(w: nat, v: Bytes, elapsed: nat, p: nat): seq<Event> {
    [FetchReturns(w, Got(v)), StoreL1(w), Tick(elapsed), ReadL1(p)]
  }

  /**
   From any state in which `w` is fetching: that run is possible, and if it stays within the TTL the
   other caller, through either entry point, gets the value as a success from the cache.
   */
  lemma FetchedValueServed(su: Setup, s: State, w: nat, v: Bytes, elapsed: nat, p: nat)
    requires |s.phases| == |su.calls| && w < |su.calls| && p < |su.calls| && su.calls[w].key == su.calls[p].key
    requires s.phases[w].Fetching? && s.phases[p].Probe1? && elapsed <= su.cfg.defaultTTL
    ensures IsRun(su, s, ReturnAndLook(w, v, elapsed, p))
    ensures var s' := Run(su, s, ReturnAndLook(w, v, elapsed, p));
      && |s'.phases| == |su.calls| && s'.phases[p] == Done(Value(v), true)
      && su.calls[w].key in s'.tiers.l1
      && s'.tiers.l1[su.calls[w].key] == Entry(v, s.now + su.cfg.defaultTTL, false)
  {
    var es := ReturnAndLook(w, v, elapsed, p);
    assert es[..1] == [] + [es[0]] && es[..2] == es[..1] + [es[1]];
    assert es[..3] == es[..2] + [es[2]] && es == es[..3] + [es[3]];
    NoEvents(su, s);
    hide IsRun, Run;
    RunsOn(su, s, [], es[0]);
    RunsOn(su, s, es[..1], es[1]);
    RunsOn(su, s, es[..2], es[2]);
    RunsOn(su, s, es[..3], es[3]);
  }

  // -------------------------------------------------------------- shared outcome

  /** Caller `w` still waits for `leader`, or both are done with the same reply. */
  ghost predicate Shares(s: State, w: nat, leader: nat) {
    && w < |s.phases| && leader < |s.phases|
    && (s.phases[w] == Wait(leader) ||
        (s.phases[w].Done? && !s.phases[w].cached &&
         s.phases[leader].Done? && s.phases[leader].reply == s.phases[w].reply))
  }

  lemma JoinShares(su: Setup, s: State, w: nat)
    requires FlightsTracked(su, s) && Enabled(su, s, Join(w)) && su.calls[w].key in s.flights
    ensures Shares(Next(su, s, Join(w)), w, s.flights[su.calls[w].key])
  {
  }

  lemma StepKeepsSharing(su: Setup, s: State, ev: Event, w: nat, leader: nat)
    requires Enabled(su, s, ev) && Shares(s, w, leader)
    ensures Shares(Next(su, s, ev), w, leader)
  {
    if s.phases[w].Done? {
      DoneIsFinal(su, s, ev, w);
      DoneIsFinal(su, s, ev, leader);
    }
  }

  /** The caller of event `i` joins a flight that `leader` already leads. */
  ghost predicate JoinsFlightOf(su: Setup, trace: seq<Event>, i: nat, leader: nat) {
    && i < |trace| && trace[i].Join? && trace[i].c < |su.calls| && IsRun(su, Start(su), trace[..i])
    && var f, k := Run(su, Start(su), trace[..i]).flights, su.calls[trace[i].c].key;
       k in f && f[k] == leader
  }

  /** A caller that joined a flight waits for it until it ends, and then has the leader's reply. */
  lemma {:induction false} JoinedCallersShareReply(su: Setup, trace: seq<Event>, i: nat, leader: nat)
    requires IsRun(su, Start(su), trace) && JoinsFlightOf(su, trace, i, leader)
    ensures Shares(Run(su, Start(su), trace), trace[i].c, leader)
    decreases |trace|
  {
    var n := |trace| - 1;
    var before := trace[..n];
    RunsExtendStepwise(su, Start(su), trace, n);
    assert trace[..n + 1] == trace;
    if i < n {
      assert before[..i] == trace[..i] && before[i] == trace[i];
      JoinedCallersShareReply(su, before, i, leader);
      StepKeepsSharing(su, Run(su, Start(su), before), trace[n], trace[i].c, leader);
    } else {
      RunsKeepFlightsTracked(su, before);
      JoinShares(su, Run(su, Start(su), before), trace[i].c);
    }
  }

  lemma DoneIsFinal(su: Setup, s: State, ev: Event, c: nat)
    requires Enabled(su, s, ev) && c < |s.phases| && s.phases[c].Done?
    ensures c < |Next(su, s, ev).phases| && Next(su, s, ev).phases[c] == s.phases[c]
  {
  }

  /** Any two callers that joined the same flight return the same, namely the leader's reply. */
  lemma SameFlightSameReply(su: Setup, trace: seq<Event>, i: nat, j: nat, leader: nat)
    requires IsRun(su, Start(su), trace)
    requires JoinsFlightOf(su, trace, i, leader) && JoinsFlightOf(su, trace, j, leader)
    ensures var ps := Run(su, Start(su), trace).phases;
      trace[i].c < |ps| && trace[j].c < |ps| && leader < |ps| &&
      (ps[trace[i].c].Done? && ps[trace[j].c].Done? ==>
        ps[trace[i].c] == ps[trace[j].c] && ps[leader].Done? && ps[leader].reply == ps[trace[i].c].reply)
  {
    JoinedCallersShareReply(su, trace, i, leader);
    JoinedCallersShareReply(su, trace, j, leader);
  }

  // ---------------------------------------------------------------- cancellation

  function WithCancelled(s: State, c: nat): State {
    s.(cancelled := s.cancelled + {c})
  }

  /** The caller has finished its first look at the cache. */
  predicate PastProbe(s: State, c: nat) {
    c < |s.phases| && !s.phases[c].Probe1? && !s.phases[c].Probe2?
  }

  lemma CancelInvisibleStep(su: Setup, s: State, c: nat, ev: Event)
    requires PastProbe(s, c)
    ensures Enabled(su, s, ev) <==> Enabled(su, WithCancelled(s, c), ev)
    ensures Enabled(su, s, ev) ==>
      Next(su, WithCancelled(s, c), ev) == WithCancelled(Next(su, s, ev), c) && PastProbe(Next(su, s, ev), c)
  {
    if ev.Cancel? {
      assert s.cancelled + {c} + {ev.who} == s.cancelled + {ev.who} + {c};
    }
  }

  /**
   Cancelling a caller that is past its probe changes nothing: from then on exactly the same runs
   are possible, and each leads to the same tiers, flights, phases and replies.
   */
  lemma {:induction false} CancelInvisible(su: Setup, s: State, c: nat, trace: seq<Event>)
    requires PastProbe(s, c)
    ensures IsRun(su, s, trace) <==> IsRun(su, WithCancelled(s, c), trace)
    ensures IsRun(su, s, trace) ==>
      Run(su, WithCancelled(s, c), trace) == WithCancelled(Run(su, s, trace), c) && PastProbe(Run(su, s, trace), c)
    decreases |trace|
  {
    if trace != [] {
      var before := trace[..|trace| - 1];
      CancelInvisible(su, s, c, before);
      if IsRun(su, s, before) {
        CancelInvisibleStep(su, Run(su, s, before), c, trace[|trace| - 1]);
      }
    }
  }

  // ------------------------------------------------------------------- progress

  /** How many protocol steps a caller may still take. */
  function Rank(p: Phase): nat {
    match p
    case Probe1 => 10
    case Probe2 => 9
    case ProbePromote(_) => 1
    case Enter => 8
    case Check1 => 7
    case Check2 => 6
    case CheckPromote(_) => 2
    case Fetching => 5
    case Store1(_, _) => 3
    case Store2(_, _) => 2
    case Land(_) => 1
    case Wait(_) => 1
    case Done(_, _) => 0
  }

  lemma {:induction false} WorkAtStart(n: nat)
    ensures Work(seq(n, _ => Probe1), Rank) == 10 * n
  {
    if n > 0 {
      assert seq(n, _ => Probe1)[1..] == seq(n - 1, _ => Probe1);
      WorkAtStart(n - 1);
    }
  }

  function ProtocolSteps(trace: seq<Event>): nat {
    if trace == [] then 0
    else ProtocolSteps(trace[..|trace| - 1]) + if trace[|trace| - 1].Protocol() then 1 else 0
  }

  /** A protocol step moves its caller, and only that one, to a phase of lower rank. */
  lemma CallerMovesDown(su: Setup, s: State, ev: Event)
    requires Enabled(su, s, ev) && ev.Protocol()
    ensures var ps, ps' := s.phases, Next(su, s, ev).phases;
      ev.c < |ps| == |ps'| && ps' == ps[ev.c := ps'[ev.c]] && Rank(ps'[ev.c]) < Rank(ps[ev.c])
  {
  }

  lemma StepWorks(su: Setup, s: State, ev: Event)
    requires Enabled(su, s, ev)
    ensures Work(Next(su, s, ev).phases, Rank) + (if ev.Protocol() then 1 else 0) <= Work(s.phases, Rank)
  {
    if ev.Protocol() {
      CallerMovesDown(su, s, ev);
      MovingDownWorks(s.phases, Next(su, s, ev).phases, ev.c);
    }
  }

  lemma {:induction false} MovingDownWorks(ps: seq<Phase>, ps': seq<Phase>, c: nat)
    requires c < |ps| == |ps'| && ps' == ps[c := ps'[c]] && Rank(ps'[c]) < Rank(ps[c])
    ensures Work(ps', Rank) < Work(ps, Rank)
  {
    WorkOfUpdate(ps, Rank, c, ps'[c]);
  }

  /** No run takes more than ten protocol steps per caller, whatever the environment does. */
  lemma {:induction false} RunsAreBounded(su: Setup, trace: seq<Event>)
    requires IsRun(su, Start(su), trace)
    ensures Work(Run(su, Start(su), trace).phases, Rank) + ProtocolSteps(trace) <= 10 * |su.calls|
  {
    if trace == [] {
      WorkAtStart(|su.calls|);
    } else {
      var before := trace[..|trace| - 1];
      RunsAreBounded(su, before);
      StepWorks(su, Run(su, Start(su), before), trace[|trace| - 1]);
    }
  }

  /** The protocol step that a caller neither waiting nor finished can take; a fetch always returns. */
  function OwnStep(p: Phase, c: nat): Event {
    match p
    case Probe1 | Check1 => ReadL1(c)
    case Probe2 | Check2 => ReadL2(c, false)
    case ProbePromote(_) | CheckPromote(_) => Promote(c)
    case Enter => Join(c)
    case Fetching => FetchReturns(c, Failed(Foreign(false, true)))
    case Store1(_, _) => StoreL1(c)
    case Store2(_, _) => StoreL2(c, false)
    case Land(_) => Close(c)
    case _ => Wake(c)
  }

  lemma OwnStepEnabled(su: Setup, s: State, c: nat)
    requires |s.phases| == |su.calls| && c < |su.calls| && !s.phases[c].Done? && !s.phases[c].Wait?
    ensures Enabled(su, s, OwnStep(s.phases[c], c)) && OwnStep(s.phases[c], c).Protocol()
  {
  }

  /** The caller whose move would bring `c` closer to its reply: itself, or the leader it waits for. */
  function Mover(s: State, c: nat): nat
    requires c < |s.phases|
  {
    var p := s.phases[c];
    if p.Wait? && p.leader < |s.phases| && !s.phases[p.leader].Done? then p.leader else c
  }

  lemma MoverCanMove(su: Setup, s: State, c: nat)
    requires FlightsTracked(su, s) && c < |su.calls| && !s.phases[c].Done?
    ensures var d := Mover(s, c);
      d < |su.calls| && Enabled(su, s, OwnStep(s.phases[d], d)) && OwnStep(s.phases[d], d).Protocol()
  {
    var p := s.phases[c];
    if p.Wait? {
      if s.phases[p.leader].InFlight() {
        OwnStepEnabled(su, s, p.leader);
      }
    } else {
      OwnStepEnabled(su, s, c);
    }
  }

  /**
   No caller is ever stuck: as long as one has not returned, it can take a protocol step itself, or
   the leader it waits for can.
   */
  lemma NobodyIsStuck(su: Setup, trace: seq<Event>, c: nat)
    requires IsRun(su, Start(su), trace) && c < |su.calls|
    ensures var s := Run(su, Start(su), trace);
      && |s.phases| == |su.calls|
      && (!s.phases[c].Done? ==>
            var d := Mover(s, c);
            d < |su.calls| && Enabled(su, s, OwnStep(s.phases[d], d)) && OwnStep(s.phases[d], d).Protocol())
  {
    RunsKeepFlightsTracked(su, trace);
    var s := Run(su, Start(su), trace);
    if !s.phases[c].Done? {
      MoverCanMove(su, s, c);
    }
  }
}
