/**
 The per-address limiter with its subnet fallback, as interleaved steps.

 A fixed number of call slots each run `getLimiter` over and over; one cleaner deletes stale
 entries. Every access to a shared map or counter is one step, so the size that a call has read may
 be out of date when it inserts.
 */
module RateLimiter {
  const MAX_RATE_LIMITER_ENTRIES: nat := 100000
  const MAX_SUBNET_LIMITER_ENTRIES: nat := 10000
  /** Ten minutes, in nanoseconds. */
  const MAX_AGE: int := 600_000_000_000

  type Address = string

  /** The two capacities, and the subnet of an address. */
  datatype Limits = Limits(maxIps: nat, maxSubnets: nat, subnetOf: Address -> Address)

  datatype Phase =
    | Idle
    | Started(ip: Address, at: int)
    | Sized(ip: Address, at: int, seen: int)
    | StoringIp(ip: Address, at: int)
    | CountingIp
    | Subnet(net: Address, at: int)
    | SizingSubnet(net: Address, at: int)
    | StoringSubnet(net: Address, at: int)
    | CountingSubnet

  datatype Cleaner =
    | Sweeping(at: int)
    | DeletingIp(ip: Address, at: int)
    | UncountingIp(at: int)
    | DeletingSubnet(net: Address, at: int)
    | UncountingSubnet(at: int)

  /** Both maps take a key to the time of its last access. */
  datatype State = State(
    now: int,
    ips: map<Address, int>, size: int,
    subnets: map<Address, int>, subnetSize: int,
    calls: seq<Phase>, cleaner: Cleaner)

  datatype Event =
    | Begin(c: nat, ip: Address)
    | Call(c: nat)
    | Tick(elapsed: nat)
    | Sweep
    | VisitIp(ip: Address)
    | VisitSubnet(net: Address)
    | Clean

  function Start(slots: nat): State {
    State(0, map[], 0, map[], 0, seq(slots, _ => Idle), Sweeping(0))
  }

  predicate Enabled(s: State, ev: Event) {
    match ev
    case Begin(c, _) => c < |s.calls| && s.calls[c].Idle?
    case Call(c) => c < |s.calls| && !s.calls[c].Idle?
    case Tick(_) => true
    case Sweep => s.cleaner.Sweeping?
    case VisitIp(ip) => s.cleaner.Sweeping? && ip in s.ips
    case VisitSubnet(net) => s.cleaner.Sweeping? && net in s.subnets
    case Clean => !s.cleaner.Sweeping?
  }

  function At(s: State, c: nat, p: Phase): State
    requires c < |s.calls|
  {
    s.(calls := s.calls[c := p])
  }

  /** The next access of the call in slot `c`. */
  function CallStep(lim: Limits, s: State, c: nat): State
    requires c < |s.calls|
  {
    match s.calls[c]
    case Idle => s
    case Started(ip, at) => At(s, c, Sized(ip, at, s.size))
    case Sized(ip, at, seen) =>
      if ip in s.ips then At(s.(ips := s.ips[ip := at]), c, Idle)
      else if seen >= lim.maxIps then At(s, c, Subnet(lim.subnetOf(ip), s.now))
      else At(s, c, StoringIp(ip, at))
    case StoringIp(ip, at) =>
      if ip in s.ips then At(s, c, Idle) else At(s.(ips := s.ips[ip := at]), c, CountingIp)
    case CountingIp => At(s.(size := s.size + 1), c, Idle)
    case Subnet(net, at) =>
      if net in s.subnets then At(s.(subnets := s.subnets[net := at]), c, Idle) else At(s, c, SizingSubnet(net, at))
    case SizingSubnet(net, at) =>
      At(s, c, if s.subnetSize >= lim.maxSubnets then Idle else StoringSubnet(net, s.now))
    case StoringSubnet(net, at) =>
      if net in s.subnets then At(s, c, Idle) else At(s.(subnets := s.subnets[net := at]), c, CountingSubnet)
    case CountingSubnet => At(s.(subnetSize := s.subnetSize + 1), c, Idle)
  }

  function CleanStep(s: State): State {
    match s.cleaner
    case Sweeping(_) => s
    case DeletingIp(ip, at) => s.(ips := s.ips - {ip}, cleaner := UncountingIp(at))
    case UncountingIp(at) => s.(size := s.size - 1, cleaner := Sweeping(at))
    case DeletingSubnet(net, at) => s.(subnets := s.subnets - {net}, cleaner := UncountingSubnet(at))
    case UncountingSubnet(at) => s.(subnetSize := s.subnetSize - 1, cleaner := Sweeping(at))
  }

  function Next(lim: Limits, s: State, ev: Event): State
    requires Enabled(s, ev)
  {
    match ev
    case Begin(c, ip) => At(s, c, Started(ip, s.now))
    case Call(c) => CallStep(lim, s, c)
    case Tick(d) => s.(now := s.now + d)
    case Sweep => s.(cleaner := Sweeping(s.now))
    case VisitIp(ip) =>
      if s.cleaner.at - s.ips[ip] > MAX_AGE then s.(cleaner := DeletingIp(ip, s.cleaner.at)) else s
    case VisitSubnet(net) =>
      if s.cleaner.at - s.subnets[net] > MAX_AGE then s.(cleaner := DeletingSubnet(net, s.cleaner.at)) else s
    case Clean => CleanStep(s)
  }

  ghost predicate IsRun(lim: Limits, s: State, trace: seq<Event>)
    decreases |trace|, 0
  {
    trace == [] ||
    (IsRun(lim, s, trace[..|trace| - 1]) && Enabled(Run(lim, s, trace[..|trace| - 1]), trace[|trace| - 1]))
  }

  ghost function Run(lim: Limits, s: State, trace: seq<Event>): State
    requires IsRun(lim, s, trace)
    decreases |trace|, 1
  {
    if trace == [] then s else Next(lim, Run(lim, s, trace[..|trace| - 1]), trace[|trace| - 1])
  }

  // ------------------------------------------------------------------- counting

  /** What a call in progress may claim of a map: an insert not yet counted, or one still to come. */
  datatype Claim = OwesIp | MayStoreIp | OwesSubnet | MayStoreSubnet

  predicate Claims(lim: Limits, p: Phase, k: Claim) {
    match k
    case OwesIp => p.CountingIp?
    case MayStoreIp => p.StoringIp? || (p.Sized? && p.seen < lim.maxIps)
    case OwesSubnet => p.CountingSubnet?
    case MayStoreSubnet => p.StoringSubnet?
  }

  function One(b: bool): nat {
    if b then 1 else 0
  }

  function Count(lim: Limits, ps: seq<Phase>, k: Claim): nat {
    if ps == [] then 0 else One(Claims(lim, ps[0], k)) + Count(lim, ps[1..], k)
  }

  lemma {:induction false} CountOfUpdate(lim: Limits, ps: seq<Phase>, c: nat, p: Phase, k: Claim)
    requires c < |ps|
    ensures Count(lim, ps[c := p], k) == Count(lim, ps, k) - One(Claims(lim, ps[c], k)) + One(Claims(lim, p, k))
  {
    if c == 0 {
      assert ps[c := p][1..] == ps[1..];
    } else {
      assert ps[c := p][1..] == ps[1..][c - 1 := p];
      CountOfUpdate(lim, ps[1..], c - 1, p, k);
    }
  }

  predicate Exclusive(j: Claim, k: Claim) {
    (j.OwesIp? && k.MayStoreIp?) || (j.OwesSubnet? && k.MayStoreSubnet?)
  }

  /** Two claims that exclude each other leave room for slot `c` if it makes neither. */
  lemma {:induction false} ClaimsLeaveRoom(lim: Limits, ps: seq<Phase>, j: Claim, k: Claim, c: nat)
    requires Exclusive(j, k)
    ensures Count(lim, ps, j) + Count(lim, ps, k) <= |ps|
    ensures c < |ps| && !Claims(lim, ps[c], j) && !Claims(lim, ps[c], k) ==>
      Count(lim, ps, j) + Count(lim, ps, k) < |ps|
  {
    if ps != [] {
      ClaimsLeaveRoom(lim, ps[1..], j, k, if c > 0 then c - 1 else 0);
    }
  }

  lemma {:induction false} CountNone(lim: Limits, ps: seq<Phase>, k: Claim)
    requires forall c :: 0 <= c < |ps| ==> !Claims(lim, ps[c], k)
    ensures Count(lim, ps, k) == 0
  {
    if ps != [] {
      CountNone(lim, ps[1..], k);
    }
  }

  /** Entries = counter + inserts not yet counted - deletions not yet counted. */
  ghost predicate IpsConserved(lim: Limits, s: State) {
    && |s.ips| == s.size + Count(lim, s.calls, OwesIp) - One(s.cleaner.UncountingIp?)
    && (s.cleaner.DeletingIp? ==> s.cleaner.ip in s.ips)
  }

  ghost predicate SubnetsConserved(lim: Limits, s: State) {
    && |s.subnets| == s.subnetSize + Count(lim, s.calls, OwesSubnet) - One(s.cleaner.UncountingSubnet?)
    && (s.cleaner.DeletingSubnet? ==> s.cleaner.net in s.subnets)
  }

  /** Entries, and the inserts that calls may still make, stay within the capacity bound. */
  ghost predicate IpsBounded(lim: Limits, s: State) {
    |s.ips| + Count(lim, s.calls, MayStoreIp) <= lim.maxIps - 1 + |s.calls|
  }

  ghost predicate SubnetsBounded(lim: Limits, s: State) {
    |s.subnets| + Count(lim, s.calls, MayStoreSubnet) <= lim.maxSubnets - 1 + |s.calls|
  }

  ghost predicate Invariant(lim: Limits, s: State) {
    IpsConserved(lim, s) && SubnetsConserved(lim, s) && IpsBounded(lim, s) && SubnetsBounded(lim, s)
  }

  lemma CallStepMovesOneCall(lim: Limits, s: State, c: nat)
    requires c < |s.calls|
    ensures |CallStep(lim, s, c).calls| == |s.calls|
    ensures CallStep(lim, s, c).calls == s.calls[c := CallStep(lim, s, c).calls[c]]
    ensures CallStep(lim, s, c).cleaner == s.cleaner
  {
  }

  lemma CallStepConservesIps(lim: Limits, s: State, c: nat)
    requires IpsConserved(lim, s) && c < |s.calls|
    ensures IpsConserved(lim, CallStep(lim, s, c))
  {
    var s' := CallStep(lim, s, c);
    CallStepMovesOneCall(lim, s, c);
    CountOfUpdate(lim, s.calls, c, s'.calls[c], OwesIp);
  }

  lemma CallStepBoundsIps(lim: Limits, s: State, c: nat)
    requires IpsConserved(lim, s) && IpsBounded(lim, s) && c < |s.calls|
    ensures IpsBounded(lim, CallStep(lim, s, c))
  {
    var s' := CallStep(lim, s, c);
    CallStepMovesOneCall(lim, s, c);
    CountOfUpdate(lim, s.calls, c, s'.calls[c], MayStoreIp);
    // a call about to read the size claims nothing yet, so the others leave room for it
    ClaimsLeaveRoom(lim, s.calls, OwesIp, MayStoreIp, c);
  }

  lemma CallStepConservesSubnets(lim: Limits, s: State, c: nat)
    requires SubnetsConserved(lim, s) && c < |s.calls|
    ensures SubnetsConserved(lim, CallStep(lim, s, c))
  {
    var s' := CallStep(lim, s, c);
    CallStepMovesOneCall(lim, s, c);
    CountOfUpdate(lim, s.calls, c, s'.calls[c], OwesSubnet);
  }

  lemma CallStepBoundsSubnets(lim: Limits, s: State, c: nat)
    requires SubnetsConserved(lim, s) && SubnetsBounded(lim, s) && c < |s.calls|
    ensures SubnetsBounded(lim, CallStep(lim, s, c))
  {
    var s' := CallStep(lim, s, c);
    CallStepMovesOneCall(lim, s, c);
    CountOfUpdate(lim, s.calls, c, s'.calls[c], MayStoreSubnet);
    // a call about to read the size claims nothing yet, so the others leave room for it
    ClaimsLeaveRoom(lim, s.calls, OwesSubnet, MayStoreSubnet, c);
  }

  lemma BeginKeepsInvariant(lim: Limits, s: State, c: nat, ip: Address)
    requires Invariant(lim, s) && Enabled(s, Begin(c, ip))
    ensures Invariant(lim, Next(lim, s, Begin(c, ip)))
  {
    var p := Started(ip, s.now);
    CountOfUpdate(lim, s.calls, c, p, OwesIp);
    CountOfUpdate(lim, s.calls, c, p, MayStoreIp);
    CountOfUpdate(lim, s.calls, c, p, OwesSubnet);
    CountOfUpdate(lim, s.calls, c, p, MayStoreSubnet);
  }

  lemma CleanKeepsInvariant(lim: Limits, s: State)
    requires Invariant(lim, s)
    ensures Invariant(lim, CleanStep(s))
  {
    if s.cleaner.DeletingIp? {
      assert (s.ips - {s.cleaner.ip}).Keys == s.ips.Keys - {s.cleaner.ip};
    } else if s.cleaner.DeletingSubnet? {
      assert (s.subnets - {s.cleaner.net}).Keys == s.subnets.Keys - {s.cleaner.net};
    }
  }

  lemma StepKeepsInvariant(lim: Limits, s: State, ev: Event)
    requires Invariant(lim, s) && Enabled(s, ev)
    ensures Invariant(lim, Next(lim, s, ev))
    ensures |Next(lim, s, ev).calls| == |s.calls|
  {
    match ev
    case Begin(c, ip) => BeginKeepsInvariant(lim, s, c, ip);
    case Call(c) =>
      CallStepMovesOneCall(lim, s, c);
      CallStepConservesIps(lim, s, c);
      CallStepBoundsIps(lim, s, c);
      CallStepConservesSubnets(lim, s, c);
      CallStepBoundsSubnets(lim, s, c);
    case Clean => CleanKeepsInvariant(lim, s);
    case _ =>
  }

  lemma {:induction false} RunsKeepInvariant(lim: Limits, slots: nat, trace: seq<Event>)
    requires IsRun(lim, Start(slots), trace) && 0 < lim.maxIps && 0 < lim.maxSubnets
    ensures Invariant(lim, Run(lim, Start(slots), trace))
    ensures |Run(lim, Start(slots), trace).calls| == slots
  {
    if trace == [] {
      var ps := Start(slots).calls;
      CountNone(lim, ps, OwesIp);
      CountNone(lim, ps, OwesSubnet);
      CountNone(lim, ps, MayStoreIp);
      CountNone(lim, ps, MayStoreSubnet);
    } else {
      var before := trace[..|trace| - 1];
      RunsKeepInvariant(lim, slots, before);
      StepKeepsInvariant(lim, Run(lim, Start(slots), before), trace[|trace| - 1]);
    }
  }

  /**
   Counter conservation, in every reachable state: each map holds its counter plus the inserts not
   yet counted minus the deletions not yet counted.
   */
  lemma CountersConserved(lim: Limits, slots: nat, trace: seq<Event>)
    requires IsRun(lim, Start(slots), trace) && 0 < lim.maxIps && 0 < lim.maxSubnets
    ensures var s := Run(lim, Start(slots), trace);
      && |s.ips| == s.size + Count(lim, s.calls, OwesIp) - One(s.cleaner.UncountingIp?)
      && |s.subnets| == s.subnetSize + Count(lim, s.calls, OwesSubnet) - One(s.cleaner.UncountingSubnet?)
  {
    RunsKeepInvariant(lim, slots, trace);
  }

  /**
   Capacity: with at most `slots` calls in flight at once, over every interleaving with each other
   and the cleaner, neither map ever holds more than its limit - 1 + slots entries.
   */
  lemma CapacityBound(lim: Limits, slots: nat, trace: seq<Event>)
    requires IsRun(lim, Start(slots), trace) && 0 < lim.maxIps && 0 < lim.maxSubnets
    ensures |Run(lim, Start(slots), trace).ips| <= lim.maxIps - 1 + slots
    ensures |Run(lim, Start(slots), trace).subnets| <= lim.maxSubnets - 1 + slots
  {
    RunsKeepInvariant(lim, slots, trace);
  }

  /** No call is between inserting and counting, and the cleaner is not between deleting and counting. */
  predicate Quiescent(s: State) {
    && s.cleaner.Sweeping?
    && forall c :: 0 <= c < |s.calls| ==> !s.calls[c].CountingIp? && !s.calls[c].CountingSubnet?
  }

  /** In every reachable quiescent state the counters are exactly the sizes of the maps. */
  lemma CountersExactWhenQuiescent(lim: Limits, slots: nat, trace: seq<Event>)
    requires IsRun(lim, Start(slots), trace) && 0 < lim.maxIps && 0 < lim.maxSubnets
    requires Quiescent(Run(lim, Start(slots), trace))
    ensures var s := Run(lim, Start(slots), trace); s.size == |s.ips| && s.subnetSize == |s.subnets|
  {
    RunsKeepInvariant(lim, slots, trace);
    var s := Run(lim, Start(slots), trace);
    CountNone(lim, s.calls, OwesIp);
    CountNone(lim, s.calls, OwesSubnet);
  }

  // ------------------------------------------------------- the bound is attained

  ghost predicate Reachable(lim: Limits, slots: nat, s: State) {
    exists trace :: IsRun(lim, Start(slots), trace) && Run(lim, Start(slots), trace) == s
  }

  lemma ReachNext(lim: Limits, slots: nat, s: State, ev: Event)
    requires Reachable(lim, slots, s) && Enabled(s, ev)
    ensures Reachable(lim, slots, Next(lim, s, ev))
  {
    var trace :| IsRun(lim, Start(slots), trace) && Run(lim, Start(slots), trace) == s;
    var longer := trace + [ev];
    assert longer[..|trace|] == trace;
    assert IsRun(lim, Start(slots), longer) && Run(lim, Start(slots), longer) == Next(lim, s, ev);
  }

  /** An address of that length. */
  function Name(i: nat): (a: Address)
    ensures |a| == i
  {
    seq(i, _ => 'x')
  }

  predicate Distinct(names: seq<Address>) {
    forall i, j :: 0 <= i < j < |names| ==> names[i] != names[j]
  }

  ghost function Taken(names: seq<Address>, k: nat): set<Address>
    requires k <= |names|
  {
    if k == 0 then {} else Taken(names, k - 1) + {names[k - 1]}
  }

  lemma {:induction false} TakenAreDistinct(names: seq<Address>, k: nat)
    requires Distinct(names) && k <= |names|
    ensures |Taken(names, k)| == k
    ensures forall n :: k <= n < |names| ==> names[n] !in Taken(names, k)
  {
    if k > 0 {
      TakenAreDistinct(names, k - 1);
    }
  }

  /** The address map holds exactly the first `k` names. */
  ghost predicate Holds(s: State, names: seq<Address>, k: nat) {
    k <= |names| && s.ips.Keys == Taken(names, k)
  }

  lemma NextIsFree(s: State, names: seq<Address>, k: nat, n: nat)
    requires Distinct(names) && Holds(s, names, k) && k <= n < |names|
    ensures names[n] !in s.ips
  {
    TakenAreDistinct(names, k);
  }

  lemma Take(lim: Limits, slots: nat, s: State, ev: Event) returns (s': State)
    requires Reachable(lim, slots, s) && Enabled(s, ev)
    ensures s' == Next(lim, s, ev) && Reachable(lim, slots, s')
  {
    ReachNext(lim, slots, s, ev);
    s' := Next(lim, s, ev);
  }

  /** Slot `c` starts a call for a new name and gets as far as being about to insert it. */
  lemma Admit(lim: Limits, slots: nat, s: State, c: nat, ip: Address) returns (s': State)
    requires Reachable(lim, slots, s) && c < |s.calls| && s.calls[c].Idle?
    requires ip !in s.ips && s.size < lim.maxIps
    ensures Reachable(lim, slots, s') && s' == At(s, c, StoringIp(ip, s.now))
  {
    var s1 := Take(lim, slots, s, Begin(c, ip));
    var s2 := Take(lim, slots, s1, Call(c));
    s' := Take(lim, slots, s2, Call(c));
    assert s'.calls == s.calls[c := StoringIp(ip, s.now)];
  }

  lemma Store(lim: Limits, slots: nat, s: State, c: nat) returns (s': State)
    requires Reachable(lim, slots, s) && c < |s.calls| && s.calls[c].StoringIp? && s.calls[c].ip !in s.ips
    ensures Reachable(lim, slots, s')
    ensures s' == At(s.(ips := s.ips[s.calls[c].ip := s.calls[c].at]), c, CountingIp)
    ensures s'.ips.Keys == s.ips.Keys + {s.calls[c].ip}
  {
    s' := Take(lim, slots, s, Call(c));
  }

  /** One call after another, up to one entry below the limit. */
  lemma {:induction false} FillBelowLimit(lim: Limits, slots: nat, names: seq<Address>, k: nat) returns (s: State)
    requires 0 < slots && k < lim.maxIps && k <= |names| && Distinct(names)
    ensures Reachable(lim, slots, s) && Holds(s, names, k) && s.size == k && s.calls == Start(slots).calls
  {
    if k == 0 {
      s := Start(slots);
      assert IsRun(lim, s, []) && Run(lim, s, []) == s;
    } else {
      var s0 := FillBelowLimit(lim, slots, names, k - 1);
      NextIsFree(s0, names, k - 1, k - 1);
      var s1 := Admit(lim, slots, s0, 0, names[k - 1]);
      var s2 := Store(lim, slots, s1, 0);
      s := Take(lim, slots, s2, Call(0));
      assert s.calls == s0.calls;
    }
  }

  /** The calls in slots `from` to `to` have each read a size one below the limit, for a name of their own. */
  ghost predicate Admitted(lim: Limits, names: seq<Address>, s: State, from: nat, to: nat)
    requires 0 < lim.maxIps && from <= to <= |s.calls| && lim.maxIps - 1 + to <= |names|
  {
    forall c :: from <= c < to ==> s.calls[c].StoringIp? && s.calls[c].ip == names[lim.maxIps - 1 + c]
  }

  lemma AdmittedMore(lim: Limits, names: seq<Address>, s0: State, s: State, j: nat, at: int)
    requires 0 < lim.maxIps && j < |s0.calls| && lim.maxIps + j <= |names| && Admitted(lim, names, s0, 0, j)
    requires s.calls == s0.calls[j := StoringIp(names[lim.maxIps - 1 + j], at)]
    requires forall c :: j < c < |s0.calls| ==> s0.calls[c].Idle?
    ensures Admitted(lim, names, s, 0, j + 1)
    ensures forall c :: j < c < |s.calls| ==> s.calls[c].Idle?
  {
  }

  lemma {:induction false} AdmitCalls(lim: Limits, slots: nat, names: seq<Address>, j: nat) returns (s: State)
    requires 0 < slots && 0 < lim.maxIps && j <= slots && |names| == lim.maxIps - 1 + slots && Distinct(names)
    ensures Reachable(lim, slots, s) && Holds(s, names, lim.maxIps - 1) && s.size == lim.maxIps - 1
    ensures |s.calls| == slots && Admitted(lim, names, s, 0, j)
    ensures forall c :: j <= c < slots ==> s.calls[c].Idle?
  {
    hide Reachable;
    if j == 0 {
      s := FillBelowLimit(lim, slots, names, lim.maxIps - 1);
    } else {
      var s0 := AdmitCalls(lim, slots, names, j - 1);
      var c, n := j - 1, lim.maxIps - 1 + (j - 1);
      NextIsFree(s0, names, lim.maxIps - 1, n);
      assert s0.calls[c].Idle?;
      s := Admit(lim, slots, s0, c, names[n]);
      AdmittedMore(lim, names, s0, s, c, s0.now);
    }
  }

  lemma {:induction false} StoreCalls(lim: Limits, slots: nat, names: seq<Address>, j: nat) returns (s: State)
    requires 0 < slots && 0 < lim.maxIps && j <= slots && |names| == lim.maxIps - 1 + slots && Distinct(names)
    ensures Reachable(lim, slots, s) && Holds(s, names, lim.maxIps - 1 + j)
    ensures |s.calls| == slots && Admitted(lim, names, s, j, slots)
  {
    hide Reachable;
    if j == 0 {
      s := AdmitCalls(lim, slots, names, slots);
    } else {
      var s0 := StoreCalls(lim, slots, names, j - 1);
      NextIsFree(s0, names, lim.maxIps - 1 + (j - 1), lim.maxIps - 1 + (j - 1));
      s := Store(lim, slots, s0, j - 1);
    }
  }

  /** The bound is tight: for every limit and every number of concurrent calls a run attains it. */
  lemma CapacityBoundAttained(lim: Limits, slots: nat)
    requires 0 < slots && 0 < lim.maxIps
    ensures exists s :: Reachable(lim, slots, s) && |s.ips| == lim.maxIps - 1 + slots
  {
    var n := lim.maxIps - 1 + slots;
    var names := seq(n, (i: nat) => Name(i));
    assert Distinct(names) by {
      assert forall i :: 0 <= i < n ==> |names[i]| == i;
    }
    var s := StoreCalls(lim, slots, names, slots);
    TakenAreDistinct(names, n);
    assert |s.ips| == |s.ips.Keys|;
  }

  // ------------------------------------------- the bound is attained for subnets

  lemma {:induction false} FillIps(lim: Limits, slots: nat, base: nat, k: nat) returns (s: State)
    requires 0 < slots && k <= lim.maxIps
    ensures Reachable(lim, slots, s) && s.calls == Start(slots).calls && s.size == k
    ensures s.subnets == map[] && s.subnetSize == 0
    ensures forall a :: a in s.ips ==> base <= |a| < base + k
  {
    if k == 0 {
      s := Start(slots);
      assert IsRun(lim, s, []) && Run(lim, s, []) == s;
    } else {
      var s0 := FillIps(lim, slots, base, k - 1);
      var ip := Name(base + k - 1);
      assert |ip| == base + k - 1;
      var s1 := Admit(lim, slots, s0, 0, ip);
      var s2 := Store(lim, slots, s1, 0);
      s := Take(lim, slots, s2, Call(0));
      assert s.calls == s0.calls;
    }
  }

  /** Slot `c` starts a call for an unknown address that no longer fits, and falls back to its subnet. */
  lemma TurnAway(lim: Limits, slots: nat, s: State, c: nat, ip: Address) returns (s': State)
    requires Reachable(lim, slots, s) && c < |s.calls| && s.calls[c].Idle?
    requires ip !in s.ips && s.size >= lim.maxIps
    ensures Reachable(lim, slots, s') && s' == At(s, c, Subnet(lim.subnetOf(ip), s.now))
  {
    var s1 := Take(lim, slots, s, Begin(c, ip));
    var s2 := Take(lim, slots, s1, Call(c));
    s' := Take(lim, slots, s2, Call(c));
    assert s'.calls == s.calls[c := Subnet(lim.subnetOf(ip), s.now)];
  }

  /** Slot `c` starts a call for an unknown address of an unknown subnet and gets to be about to insert the subnet. */
  lemma AdmitSubnet(lim: Limits, slots: nat, s: State, c: nat, ip: Address) returns (s': State)
    requires Reachable(lim, slots, s) && c < |s.calls| && s.calls[c].Idle? && s.size >= lim.maxIps
    requires ip !in s.ips && lim.subnetOf(ip) !in s.subnets && s.subnetSize < lim.maxSubnets
    ensures Reachable(lim, slots, s') && s' == At(s, c, StoringSubnet(lim.subnetOf(ip), s.now))
  {
    var s1 := TurnAway(lim, slots, s, c, ip);
    var s2 := Take(lim, slots, s1, Call(c));
    s' := Take(lim, slots, s2, Call(c));
    assert s'.calls == s.calls[c := StoringSubnet(lim.subnetOf(ip), s.now)];
  }

  lemma StoreSubnet(lim: Limits, slots: nat, s: State, c: nat) returns (s': State)
    requires Reachable(lim, slots, s) && c < |s.calls| && s.calls[c].StoringSubnet?
    requires s.calls[c].net !in s.subnets
    ensures Reachable(lim, slots, s')
    ensures s' == At(s.(subnets := s.subnets[s.calls[c].net := s.calls[c].at]), c, CountingSubnet)
    ensures s'.subnets.Keys == s.subnets.Keys + {s.calls[c].net}
  {
    s' := Take(lim, slots, s, Call(c));
  }

  /** The callers' subnets are pairwise distinct. */
  predicate DistinctSubnets(lim: Limits, callers: seq<Address>) {
    forall i, j :: 0 <= i < j < |callers| ==> lim.subnetOf(callers[i]) != lim.subnetOf(callers[j])
  }

  ghost function Nets(lim: Limits, callers: seq<Address>, k: nat): set<Address>
    requires k <= |callers|
  {
    if k == 0 then {} else Nets(lim, callers, k - 1) + {lim.subnetOf(callers[k - 1])}
  }

  lemma {:induction false} NetsAreDistinct(lim: Limits, callers: seq<Address>, k: nat)
    requires DistinctSubnets(lim, callers) && k <= |callers|
    ensures |Nets(lim, callers, k)| == k
    ensures forall n :: k <= n < |callers| ==> lim.subnetOf(callers[n]) !in Nets(lim, callers, k)
  {
    if k > 0 {
      NetsAreDistinct(lim, callers, k - 1);
    }
  }

  function MaxLength(callers: seq<Address>): (n: nat)
    ensures forall a :: a in callers ==> |a| < n
  {
    if callers == [] then 0
    else
      var n, last := MaxLength(callers[..|callers| - 1]), |callers[|callers| - 1]| + 1;
      assert callers == callers[..|callers| - 1] + [callers[|callers| - 1]];
      if n < last then last else n
  }

  /** None of the callers is in the address map, and the subnets of the first `k` are those in the subnet map. */
  ghost predicate Served(lim: Limits, s: State, callers: seq<Address>, k: nat) {
    && k <= |callers| && s.size >= lim.maxIps
    && (forall a :: a in callers ==> a !in s.ips)
    && s.subnets.Keys == Nets(lim, callers, k)
  }

  /** The caller behind the served ones is known to neither map. */
  lemma NextIsUnknown(lim: Limits, s: State, callers: seq<Address>, k: nat, n: nat)
    requires DistinctSubnets(lim, callers) && Served(lim, s, callers, k) && k <= n < |callers|
    ensures callers[n] !in s.ips && lim.subnetOf(callers[n]) !in s.subnets
  {
    NetsAreDistinct(lim, callers, k);
    assert callers[n] in callers;
  }

  /** A whole call of slot 0 for a caller whose subnet is new. */
  lemma InsertSubnet(lim: Limits, slots: nat, s: State, ip: Address) returns (s': State)
    requires Reachable(lim, slots, s) && 0 < |s.calls| && s.calls[0].Idle? && s.size >= lim.maxIps
    requires ip !in s.ips && lim.subnetOf(ip) !in s.subnets && s.subnetSize < lim.maxSubnets
    ensures Reachable(lim, slots, s') && s'.calls == s.calls && s'.ips == s.ips && s'.size == s.size
    ensures s'.subnets.Keys == s.subnets.Keys + {lim.subnetOf(ip)} && s'.subnetSize == s.subnetSize + 1
  {
    var s1 := AdmitSubnet(lim, slots, s, 0, ip);
    var s2 := StoreSubnet(lim, slots, s1, 0);
    s' := Take(lim, slots, s2, Call(0));
    assert s'.calls == s.calls;
  }

  /** One caller after another, up to one subnet below the limit. */
  lemma {:induction false} FillSubnets(lim: Limits, slots: nat, callers: seq<Address>, k: nat) returns (s: State)
    requires 0 < slots && k < lim.maxSubnets && k <= |callers| && DistinctSubnets(lim, callers)
    ensures Reachable(lim, slots, s) && s.calls == Start(slots).calls
    ensures Served(lim, s, callers, k) && s.subnetSize == k
  {
    if k == 0 {
      s := FillIps(lim, slots, MaxLength(callers), lim.maxIps);
      assert s.subnets.Keys == {};
    } else {
      var s0 := FillSubnets(lim, slots, callers, k - 1);
      NextIsUnknown(lim, s0, callers, k - 1, k - 1);
      s := InsertSubnet(lim, slots, s0, callers[k - 1]);
    }
  }

  /** The calls in slots `from` to `to` have each read a size one below the limit, for a subnet of their own. */
  ghost predicate SubnetsAdmitted(lim: Limits, callers: seq<Address>, s: State, from: nat, to: nat)
    requires 0 < lim.maxSubnets && from <= to <= |s.calls| && lim.maxSubnets - 1 + to <= |callers|
  {
    forall c :: from <= c < to ==>
      s.calls[c].StoringSubnet? && s.calls[c].net == lim.subnetOf(callers[lim.maxSubnets - 1 + c])
  }

  lemma SubnetsAdmittedMore(lim: Limits, callers: seq<Address>, s0: State, s: State, j: nat, at: int)
    requires 0 < lim.maxSubnets && j < |s0.calls| && lim.maxSubnets + j <= |callers|
    requires SubnetsAdmitted(lim, callers, s0, 0, j)
    requires s.calls == s0.calls[j := StoringSubnet(lim.subnetOf(callers[lim.maxSubnets - 1 + j]), at)]
    requires forall c :: j < c < |s0.calls| ==> s0.calls[c].Idle?
    ensures SubnetsAdmitted(lim, callers, s, 0, j + 1)
    ensures forall c :: j < c < |s.calls| ==> s.calls[c].Idle?
  {
  }

  lemma {:induction false} AdmitSubnetCalls(lim: Limits, slots: nat, callers: seq<Address>, j: nat) returns (s: State)
    requires 0 < slots && 0 < lim.maxSubnets && j <= slots && |callers| == lim.maxSubnets - 1 + slots
    requires DistinctSubnets(lim, callers)
    ensures Reachable(lim, slots, s) && Served(lim, s, callers, lim.maxSubnets - 1)
    ensures s.subnetSize == lim.maxSubnets - 1
    ensures |s.calls| == slots && SubnetsAdmitted(lim, callers, s, 0, j)
    ensures forall c :: j <= c < slots ==> s.calls[c].Idle?
  {
    hide Reachable;
    if j == 0 {
      s := FillSubnets(lim, slots, callers, lim.maxSubnets - 1);
    } else {
      var s0 := AdmitSubnetCalls(lim, slots, callers, j - 1);
      var c, n := j - 1, lim.maxSubnets - 1 + (j - 1);
      NextIsUnknown(lim, s0, callers, lim.maxSubnets - 1, n);
      assert s0.calls[c].Idle?;
      s := AdmitSubnet(lim, slots, s0, c, callers[n]);
      SubnetsAdmittedMore(lim, callers, s0, s, c, s0.now);
    }
  }

  lemma {:induction false} StoreSubnetCalls(lim: Limits, slots: nat, callers: seq<Address>, j: nat) returns (s: State)
    requires 0 < slots && 0 < lim.maxSubnets && j <= slots && |callers| == lim.maxSubnets - 1 + slots
    requires DistinctSubnets(lim, callers)
    ensures Reachable(lim, slots, s) && Served(lim, s, callers, lim.maxSubnets - 1 + j)
    ensures |s.calls| == slots && SubnetsAdmitted(lim, callers, s, j, slots)
  {
    hide Reachable;
    if j == 0 {
      s := AdmitSubnetCalls(lim, slots, callers, slots);
    } else {
      var s0 := StoreSubnetCalls(lim, slots, callers, j - 1);
      NextIsUnknown(lim, s0, callers, lim.maxSubnets - 1 + (j - 1), lim.maxSubnets - 1 + (j - 1));
      s := StoreSubnet(lim, slots, s0, j - 1);
    }
  }

  /** The bound is tight for the subnet map too, given as many callers from different subnets as it allows. */
  lemma SubnetBoundAttained(lim: Limits, slots: nat, callers: seq<Address>)
    requires 0 < slots && 0 < lim.maxSubnets
    requires |callers| == lim.maxSubnets - 1 + slots && DistinctSubnets(lim, callers)
    ensures exists s :: Reachable(lim, slots, s) && |s.subnets| == lim.maxSubnets - 1 + slots
  {
    var s := StoreSubnetCalls(lim, slots, callers, slots);
    NetsAreDistinct(lim, callers, lim.maxSubnets - 1 + slots);
    assert |s.subnets| == |s.subnets.Keys|;
  }

  // --------------------------------------------- deleting an entry that is in use

  lemma {:induction false} PrefixIsRun(lim: Limits, s: State, trace: seq<Event>, n: nat)
    requires IsRun(lim, s, trace) && n <= |trace|
    ensures IsRun(lim, s, trace[..n])
    decreases |trace|
  {
    if n == |trace| {
      assert trace[..n] == trace;
    } else {
      assert trace[..|trace| - 1][..n] == trace[..n];
      PrefixIsRun(lim, s, trace[..|trace| - 1], n);
    }
  }

  /** The state before event `n` of the run. */
  ghost function StateAt(lim: Limits, slots: nat, trace: seq<Event>, n: nat): State
    requires IsRun(lim, Start(slots), trace) && n <= |trace|
  {
    PrefixIsRun(lim, Start(slots), trace, n);
    Run(lim, Start(slots), trace[..n])
  }

  /** The step is a call that finds the entry of `ip` and writes its own time into it. */
  predicate Touches(s: State, ev: Event, ip: Address) {
    && ev.Call? && ev.c < |s.calls| && s.calls[ev.c].Sized? && s.calls[ev.c].ip == ip && ip in s.ips
  }

  /** Event `j` touches the entry of `ip`, and no event of the run after it does. */
  ghost predicate LastTouch(lim: Limits, slots: nat, trace: seq<Event>, j: nat, ip: Address)
    requires IsRun(lim, Start(slots), trace) && j < |trace|
  {
    && Touches(StateAt(lim, slots, trace, j), trace[j], ip)
    && forall m :: j < m < |trace| ==> !Touches(StateAt(lim, slots, trace, m), trace[m], ip)
  }

  /** Event `j`, after the judgement at `i`, is the last touch of the entry, by a call that began recently. */
  ghost predicate UsedSince(lim: Limits, slots: nat, trace: seq<Event>, i: nat, j: nat, ip: Address, at: int)
    requires IsRun(lim, Start(slots), trace) && j < |trace|
  {
    && i < j && LastTouch(lim, slots, trace, j, ip)
    && at - StateAt(lim, slots, trace, j).calls[trace[j].c].at <= MAX_AGE
  }

  /** While the cleaner is about to delete an entry, only touches write it. */
  lemma PendingStep(lim: Limits, s: State, ev: Event, ip: Address)
    requires Enabled(s, ev) && s.cleaner.DeletingIp? && s.cleaner.ip == ip && ip in s.ips
    requires Next(lim, s, ev).cleaner == s.cleaner
    ensures var s' := Next(lim, s, ev);
      ip in s'.ips && s'.ips[ip] == if Touches(s, ev, ip) then s.calls[ev.c].at else s.ips[ip]
  {
  }

  /** The cleaner turns to an entry only by judging it stale. */
  lemma JudgingStep(lim: Limits, s: State, ev: Event)
    requires Enabled(s, ev) && Next(lim, s, ev).cleaner.DeletingIp? && Next(lim, s, ev).cleaner != s.cleaner
    ensures var s' := Next(lim, s, ev);
      && ev == VisitIp(s'.cleaner.ip) && s'.ips == s.ips && s'.cleaner.ip in s.ips
      && s.cleaner == Sweeping(s'.cleaner.at) && s'.cleaner.at - s.ips[s'.cleaner.ip] > MAX_AGE
  {
  }

  lemma SameStateBefore(lim: Limits, slots: nat, trace: seq<Event>, m: nat)
    requires IsRun(lim, Start(slots), trace) && m < |trace|
    ensures StateAt(lim, slots, trace, m) == StateAt(lim, slots, trace[..|trace| - 1], m)
  {
    assert trace[..m] == trace[..|trace| - 1][..m];
  }

  /** One more event behind a run is the last touch, or leaves the last touch where it was. */
  lemma LastTouchStep(lim: Limits, slots: nat, trace: seq<Event>, j: nat, ip: Address)
    requires IsRun(lim, Start(slots), trace) && j < |trace|
    ensures var n, before := |trace| - 1, trace[..|trace| - 1];
      var touched := Touches(Run(lim, Start(slots), before), trace[n], ip);
      LastTouch(lim, slots, trace, j, ip) <==>
        if j == n then touched else !touched && LastTouch(lim, slots, before, j, ip)
  {
    hide Run, IsRun, Touches;
    var n, before := |trace| - 1, trace[..|trace| - 1];
    PrefixIsRun(lim, Start(slots), trace, n);
    forall m: nat | j <= m < n
      ensures before[m] == trace[m] && StateAt(lim, slots, trace, m) == StateAt(lim, slots, before, m)
    {
      SameStateBefore(lim, slots, trace, m);
    }
  }

  lemma UsedSinceStep(lim: Limits, slots: nat, trace: seq<Event>, i: nat, ip: Address, at: int)
    requires IsRun(lim, Start(slots), trace) && i + 1 < |trace|
    ensures var n, before := |trace| - 1, trace[..|trace| - 1];
      var s := Run(lim, Start(slots), before);
      (exists j :: i < j < |trace| && UsedSince(lim, slots, trace, i, j, ip, at)) <==>
        if Touches(s, trace[n], ip) then at - s.calls[trace[n].c].at <= MAX_AGE
        else exists j :: i < j < n && UsedSince(lim, slots, before, i, j, ip, at)
  {
    hide Run, IsRun, StateAt, LastTouch;
    var n, before := |trace| - 1, trace[..|trace| - 1];
    PrefixIsRun(lim, Start(slots), trace, n);
    var s := Run(lim, Start(slots), before);
    NowIsBefore(lim, slots, trace);
    LastTouchStep(lim, slots, trace, n, ip);
    forall j: nat | i < j < n
      ensures UsedSince(lim, slots, trace, i, j, ip, at) <==>
        !Touches(s, trace[n], ip) && UsedSince(lim, slots, before, i, j, ip, at)
    {
      LastTouchStep(lim, slots, trace, j, ip);
      SameStateBefore(lim, slots, trace, j);
    }
    if Touches(s, trace[n], ip) {
      assert UsedSince(lim, slots, trace, i, n, ip, at) <==> at - s.calls[trace[n].c].at <= MAX_AGE;
    }
  }

  lemma NowIsBefore(lim: Limits, slots: nat, trace: seq<Event>)
    requires IsRun(lim, Start(slots), trace) && trace != []
    ensures StateAt(lim, slots, trace, |trace| - 1) == Run(lim, Start(slots), trace[..|trace| - 1])
  {
  }

  /**
   Exactly when the cleaner deletes an address that is in use, in every run. Before each deletion the
   cleaner has judged the entry stale, at event `i` of the run. The entry that goes is a recently used one
   if and only if some call touched it between judgement and deletion, began recently itself, and was
   the last to touch it.
   */
  lemma {:induction false} UsedEntryDeletedExactlyWhen(lim: Limits, slots: nat, trace: seq<Event>) returns (i: nat)
    requires IsRun(lim, Start(slots), trace) && Run(lim, Start(slots), trace).cleaner.DeletingIp?
    ensures var s := Run(lim, Start(slots), trace);
      var ip, at := s.cleaner.ip, s.cleaner.at;
      && i < |trace| && trace[i] == VisitIp(ip) && ip in StateAt(lim, slots, trace, i).ips
      && at - StateAt(lim, slots, trace, i).ips[ip] > MAX_AGE
      && (forall m :: i < m < |trace| ==> StateAt(lim, slots, trace, m).cleaner == s.cleaner)
      && ip in s.ips && ip !in Next(lim, s, Clean).ips
      && (at - s.ips[ip] <= MAX_AGE <==>
            exists j :: i < j < |trace| && UsedSince(lim, slots, trace, i, j, ip, at))
  {
    hide UsedSince, Touches, CallStep;
    assert trace != [];
    var n, before := |trace| - 1, trace[..|trace| - 1];
    var s, s' := Run(lim, Start(slots), before), Run(lim, Start(slots), trace);
    if s.cleaner == s'.cleaner {
      i := UsedEntryDeletedExactlyWhen(lim, slots, before);
      assert trace[..i] == before[..i];
      forall m: nat | i < m < |trace| ensures StateAt(lim, slots, trace, m).cleaner == s'.cleaner {
        if m < n {
          SameStateBefore(lim, slots, trace, m);
        }
      }
      PendingStep(lim, s, trace[n], s'.cleaner.ip);
      UsedSinceStep(lim, slots, trace, i, s'.cleaner.ip, s'.cleaner.at);
    } else {
      i := n;
      JudgingStep(lim, s, trace[n]);
      assert trace[..i] == before;
    }
  }

  /** An address map with one entry, as old as the clock says. */
  lemma OneEntry(lim: Limits, slots: nat, ip: Address, age: nat) returns (s: State)
    requires 0 < slots && 0 < lim.maxIps
    ensures Reachable(lim, slots, s) && s.calls == Start(slots).calls && s.cleaner == Sweeping(0)
    ensures s.now == age && s.ips == map[ip := 0] && s.size == 1
  {
    s := Start(slots);
    assert IsRun(lim, s, []) && Run(lim, s, []) == s;
    s := Admit(lim, slots, s, 0, ip);
    s := Store(lim, slots, s, 0);
    s := Take(lim, slots, s, Call(0));
    s := Take(lim, slots, s, Tick(age));
    assert s.calls == Start(slots).calls;
  }

  /**
   Such deletions happen, whatever the limits: an address is used, left alone for a little more than
   ten minutes, judged stale, used again, and deleted at the very moment of that second use.
   */
  lemma UsedEntryDeleted(lim: Limits, slots: nat, ip: Address) returns (s: State)
    requires 0 < slots && 0 < lim.maxIps
    ensures Reachable(lim, slots, s) && Enabled(s, Clean)
    ensures s.cleaner == DeletingIp(ip, s.now) && ip in s.ips && s.ips[ip] == s.now
    ensures ip !in Next(lim, s, Clean).ips
  {
    s := OneEntry(lim, slots, ip, MAX_AGE + 1);
    s := Take(lim, slots, s, Sweep);
    s := Take(lim, slots, s, VisitIp(ip));
    assert s.cleaner == DeletingIp(ip, s.now) && s.calls[0].Idle?;
    s := Take(lim, slots, s, Begin(0, ip));
    s := Take(lim, slots, s, Call(0));
    s := Take(lim, slots, s, Call(0));
  }
}

/**
 The limiter as one caller at a time sees it. Each method is proved against its effect on the two
 maps, and proved to be a run of the interleaved system taken by a single slot.
 */
module IPRateLimiter {
  import opened RateLimiter

  datatype Verdict = PerIp | PerSubnet | Refused

  ghost predicate Leads(lim: Limits, s: State, s': State) {
    exists trace :: IsRun(lim, s, trace) && Run(lim, s, trace) == s'
  }

  lemma LeadsNowhere(lim: Limits, s: State)
    ensures Leads(lim, s, s)
  {
    assert IsRun(lim, s, []) && Run(lim, s, []) == s;
  }

  lemma LeadsNext(lim: Limits, s: State, mid: State, ev: Event)
    requires Leads(lim, s, mid) && Enabled(mid, ev)
    ensures Leads(lim, s, Next(lim, mid, ev))
  {
    var trace :| IsRun(lim, s, trace) && Run(lim, s, trace) == mid;
    var longer := trace + [ev];
    assert longer[..|trace|] == trace;
    assert IsRun(lim, s, longer) && Run(lim, s, longer) == Next(lim, mid, ev);
  }

  lemma {:induction false} RunsJoin(lim: Limits, s: State, first: seq<Event>, second: seq<Event>)
    requires IsRun(lim, s, first) && IsRun(lim, Run(lim, s, first), second)
    ensures IsRun(lim, s, first + second)
    ensures Run(lim, s, first + second) == Run(lim, Run(lim, s, first), second)
    decreases |second|
  {
    if second == [] {
      assert first + second == first;
    } else {
      var n := |second| - 1;
      RunsJoin(lim, s, first, second[..n]);
      assert (first + second)[..|first + second| - 1] == first + second[..n];
    }
  }

  lemma LeadsOn(lim: Limits, s: State, mid: State, s': State)
    requires Leads(lim, s, mid) && Leads(lim, mid, s')
    ensures Leads(lim, s, s')
  {
    var first :| IsRun(lim, s, first) && Run(lim, s, first) == mid;
    var second :| IsRun(lim, mid, second) && Run(lim, mid, second) == s';
    RunsJoin(lim, s, first, second);
  }

  /** The entries that the cleaner keeps. */
  function Fresh(m: map<Address, int>, now: int): map<Address, int> {
    map k | k in m && now - m[k] <= MAX_AGE :: m[k]
  }

  class IPRateLimiter {
    const lim: Limits
    var limiters: map<Address, int>
    var size: int
    var subnetLimiters: map<Address, int>
    var subnetSize: int
    var clock: int  // the wall clock
    ghost var swept: int

    /** The counters agree with the maps, as they do whenever nothing is in progress. */
    ghost predicate Valid()
      reads this
    {
      size == |limiters| && subnetSize == |subnetLimiters|
    }

    ghost function AsState(): State
      reads this
    {
      State(clock, limiters, size, subnetLimiters, subnetSize, [Idle], Sweeping(swept))
    }

    constructor (subnetOf: Address -> Address)
      ensures lim == Limits(MAX_RATE_LIMITER_ENTRIES, MAX_SUBNET_LIMITER_ENTRIES, subnetOf)
      ensures Valid() && AsState() == Start(1)
    {
      lim := Limits(MAX_RATE_LIMITER_ENTRIES, MAX_SUBNET_LIMITER_ENTRIES, subnetOf);
      limiters, size, subnetLimiters, subnetSize := map[], 0, map[], 0;
      clock, swept := 0, 0;
      new;
      assert Start(1).calls == [Idle];
    }

    /** An address is refused exactly when it and its subnet are unknown and both maps are full. */
    method GetLimiter(ip: Address) returns (v: Verdict)
      requires Valid()
      modifies this
      ensures Valid() && clock == old(clock)
      ensures v.PerIp? <==> ip in old(limiters) || |old(limiters)| < lim.maxIps
      ensures v.Refused? <==>
        && ip !in old(limiters) && |old(limiters)| >= lim.maxIps
        && lim.subnetOf(ip) !in old(subnetLimiters) && |old(subnetLimiters)| >= lim.maxSubnets
      ensures limiters == if v.PerIp? then old(limiters)[ip := clock] else old(limiters)
      ensures subnetLimiters ==
        if v.PerSubnet? then old(subnetLimiters)[lim.subnetOf(ip) := clock] else old(subnetLimiters)
      ensures Leads(lim, old(AsState()), AsState())
    {
      ghost var s0 := AsState();
      var currentSize := size;
      if ip in limiters {
        TouchIp(s0, ip);
        limiters := limiters[ip := clock];
        return PerIp;
      }
      if currentSize >= lim.maxIps {
        TurnAwayIp(s0, ip);
        v := GetSubnetLimiter(ip, s0, s0.(calls := [Subnet(lim.subnetOf(ip), clock)]));
        return;
      }
      AdmitIp(s0, ip);
      limiters := limiters[ip := clock];
      size := size + 1;
      return PerIp;
    }

    /** A call starts and reads the size. */
    lemma Arrive(s0: State, ip: Address) returns (s: State)
      requires s0.calls == [Idle]
      ensures s == s0.(calls := [Sized(ip, s0.now, s0.size)]) && Leads(lim, s0, s)
    {
      LeadsNowhere(lim, s0);
      LeadsNext(lim, s0, s0, Begin(0, ip));
      s := Advance(s0, Next(lim, s0, Begin(0, ip)));
    }

    lemma TouchIp(s0: State, ip: Address)
      requires s0.calls == [Idle] && ip in s0.ips
      ensures Leads(lim, s0, s0.(ips := s0.ips[ip := s0.now]))
    {
      var s := Arrive(s0, ip);
      s := Advance(s0, s);
    }

    lemma TurnAwayIp(s0: State, ip: Address)
      requires s0.calls == [Idle] && ip !in s0.ips && s0.size >= lim.maxIps
      ensures Leads(lim, s0, s0.(calls := [Subnet(lim.subnetOf(ip), s0.now)]))
    {
      var s := Arrive(s0, ip);
      s := Advance(s0, s);
    }

    /** Inserting the address and counting it. */
    lemma AdmitIp(s0: State, ip: Address)
      requires s0.calls == [Idle] && ip !in s0.ips && s0.size < lim.maxIps
      ensures Leads(lim, s0, s0.(ips := s0.ips[ip := s0.now], size := s0.size + 1))
    {
      var s := Arrive(s0, ip);
      s := Advance(s0, s);
      assert s.calls == [StoringIp(ip, s0.now)];
      s := Advance(s0, s);
      s := Advance(s0, s);
    }

    method GetSubnetLimiter(ip: Address, ghost s0: State, ghost s: State) returns (v: Verdict)
      requires Valid()
      requires Leads(lim, s0, s) && s == AsState().(calls := [Subnet(lim.subnetOf(ip), clock)])
      modifies this
      ensures Valid() && clock == old(clock) && limiters == old(limiters) && !v.PerIp?
      ensures v.Refused? <==> lim.subnetOf(ip) !in old(subnetLimiters) && |old(subnetLimiters)| >= lim.maxSubnets
      ensures subnetLimiters ==
        if v.PerSubnet? then old(subnetLimiters)[lim.subnetOf(ip) := clock] else old(subnetLimiters)
      ensures Leads(lim, s0, AsState())
    {
      var subnet := lim.subnetOf(ip);
      if subnet in subnetLimiters {
        TouchSubnet(s0, s, subnet);
        subnetLimiters := subnetLimiters[subnet := clock];
        return PerSubnet;
      }
      if subnetSize >= lim.maxSubnets {
        RefuseSubnet(s0, s, subnet);
        return Refused;
      }
      AdmitSubnet(s0, s, subnet);
      subnetLimiters := subnetLimiters[subnet := clock];
      subnetSize := subnetSize + 1;
      return PerSubnet;
    }

    lemma TouchSubnet(s0: State, s: State, net: Address)
      requires Leads(lim, s0, s) && s.calls == [Subnet(net, s.now)] && net in s.subnets
      ensures Leads(lim, s0, s.(calls := [Idle], subnets := s.subnets[net := s.now]))
    {
      var t := Advance(s0, s);
    }

    lemma RefuseSubnet(s0: State, s: State, net: Address)
      requires Leads(lim, s0, s) && s.calls == [Subnet(net, s.now)]
      requires net !in s.subnets && s.subnetSize >= lim.maxSubnets
      ensures Leads(lim, s0, s.(calls := [Idle]))
    {
      var t := Advance(s0, s);
      t := Advance(s0, t);
    }

    /** Reading the size, inserting the subnet and counting it. */
    lemma AdmitSubnet(s0: State, s: State, net: Address)
      requires Leads(lim, s0, s) && s.calls == [Subnet(net, s.now)]
      requires net !in s.subnets && s.subnetSize < lim.maxSubnets
      ensures Leads(lim, s0, s.(calls := [Idle], subnets := s.subnets[net := s.now], subnetSize := s.subnetSize + 1))
    {
      var t := Advance(s0, s);
      t := Advance(s0, t);
      assert t == s.(calls := [StoringSubnet(net, s.now)]);
      t := Advance(s0, t);
      t := Advance(s0, t);
    }

    /** One more access of the only call. */
    lemma Advance(s0: State, s: State) returns (t: State)
      requires Leads(lim, s0, s) && |s.calls| == 1 && !s.calls[0].Idle?
      ensures t == CallStep(lim, s, 0) && Leads(lim, s0, t)
    {
      LeadsNext(lim, s0, s, Call(0));
      t := CallStep(lim, s, 0);
    }

    method Elapse(elapsed: nat)
      modifies this`clock
      ensures clock == old(clock) + elapsed && Leads(lim, old(AsState()), AsState())
    {
      LeadsNowhere(lim, AsState());
      LeadsNext(lim, AsState(), AsState(), Tick(elapsed));
      clock := clock + elapsed;
    }

    /** Visiting a stale address, deleting it and counting the deletion. */
    lemma DropIp(s0: State, s: State, key: Address)
      requires Leads(lim, s0, s) && s.cleaner.Sweeping? && key in s.ips && s.cleaner.at - s.ips[key] > MAX_AGE
      ensures Leads(lim, s0, s.(ips := s.ips - {key}, size := s.size - 1))
      ensures |s.ips - {key}| == |s.ips| - 1
    {
      LeadsNext(lim, s0, s, VisitIp(key));
      var s1 := Next(lim, s, VisitIp(key));
      LeadsNext(lim, s0, s1, Clean);
      LeadsNext(lim, s0, Next(lim, s1, Clean), Clean);
      assert Next(lim, Next(lim, s1, Clean), Clean) == s.(ips := s.ips - {key}, size := s.size - 1);
      assert (s.ips - {key}).Keys == s.ips.Keys - {key};
    }

    lemma DropSubnet(s0: State, s: State, key: Address)
      requires Leads(lim, s0, s) && s.cleaner.Sweeping? && key in s.subnets && s.cleaner.at - s.subnets[key] > MAX_AGE
      ensures Leads(lim, s0, s.(subnets := s.subnets - {key}, subnetSize := s.subnetSize - 1))
      ensures |s.subnets - {key}| == |s.subnets| - 1
    {
      LeadsNext(lim, s0, s, VisitSubnet(key));
      var s1 := Next(lim, s, VisitSubnet(key));
      LeadsNext(lim, s0, s1, Clean);
      LeadsNext(lim, s0, Next(lim, s1, Clean), Clean);
      assert Next(lim, Next(lim, s1, Clean), Clean) == s.(subnets := s.subnets - {key}, subnetSize := s.subnetSize - 1);
      assert (s.subnets - {key}).Keys == s.subnets.Keys - {key};
    }

    method CleanIps(ghost s0: State)
      requires Valid() && swept == clock && Leads(lim, s0, AsState())
      modifies this`limiters, this`size
      ensures Valid() && limiters == Fresh(old(limiters), clock)
      ensures Leads(lim, s0, AsState())
    {
      ghost var ips := limiters;
      var todo := limiters.Keys;
      while todo != {}
        invariant Valid()
        invariant todo <= limiters.Keys <= ips.Keys
        invariant forall k :: k in limiters ==> limiters[k] == ips[k]
        invariant forall k :: k in ips && k !in todo ==> (k in limiters <==> clock - ips[k] <= MAX_AGE)
        invariant Leads(lim, s0, AsState())
        decreases todo
      {
        var key :| key in todo;
        todo := todo - {key};
        if clock - limiters[key] > MAX_AGE {
          ghost var s := AsState();
          DropIp(s0, s, key);
          limiters := limiters - {key};
          size := size - 1;
          assert AsState() == s.(ips := s.ips - {key}, size := s.size - 1);
        }
      }
    }

    method CleanSubnets(ghost s0: State)
      requires Valid() && swept == clock && Leads(lim, s0, AsState())
      modifies this`subnetLimiters, this`subnetSize
      ensures Valid() && subnetLimiters == Fresh(old(subnetLimiters), clock)
      ensures Leads(lim, s0, AsState())
    {
      ghost var subnets := subnetLimiters;
      var todo := subnetLimiters.Keys;
      while todo != {}
        invariant Valid()
        invariant todo <= subnetLimiters.Keys <= subnets.Keys
        invariant forall k :: k in subnetLimiters ==> subnetLimiters[k] == subnets[k]
        invariant forall k :: k in subnets && k !in todo ==> (k in subnetLimiters <==> clock - subnets[k] <= MAX_AGE)
        invariant Leads(lim, s0, AsState())
        decreases todo
      {
        var key :| key in todo;
        todo := todo - {key};
        if clock - subnetLimiters[key] > MAX_AGE {
          ghost var s := AsState();
          DropSubnet(s0, s, key);
          subnetLimiters := subnetLimiters - {key};
          subnetSize := subnetSize - 1;
          assert AsState() == s.(subnets := s.subnets - {key}, subnetSize := s.subnetSize - 1);
        }
      }
    }

    /** One pass of the cleaner keeps exactly the entries used in the last ten minutes, in both maps. */
    method Cleanup()
      requires Valid()
      modifies this
      ensures Valid() && clock == old(clock)
      ensures limiters == Fresh(old(limiters), clock) && subnetLimiters == Fresh(old(subnetLimiters), clock)
      ensures Leads(lim, old(AsState()), AsState())
    {
      ghost var s0 := AsState();
      LeadsNowhere(lim, s0);
      LeadsNext(lim, s0, s0, Sweep);
      swept := clock;
      CleanIps(s0);
      CleanSubnets(s0);
    }

    /**
     A call, a while without calls, and a pass of the cleaner: the address that was let in, or else its
     subnet, is kept exactly if the pass comes within ten minutes.
     */
    method GetThenCleanup(ip: Address, elapsed: nat) returns (v: Verdict)
      requires Valid()
      modifies this
      ensures Valid() && clock == old(clock) + elapsed
      ensures v.PerIp? ==> (ip in limiters <==> elapsed <= MAX_AGE)
      ensures v.PerSubnet? ==> (lim.subnetOf(ip) in subnetLimiters <==> elapsed <= MAX_AGE)
      ensures Leads(lim, old(AsState()), AsState())
    {
      ghost var s0 := AsState();
      v := GetLimiter(ip);
      ghost var s1 := AsState();
      Elapse(elapsed);
      ghost var s2 := AsState();
      Cleanup();
      LeadsOn(lim, s0, s1, s2);
      LeadsOn(lim, s0, s2, AsState());
    }
  }
}
