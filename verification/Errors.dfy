/** Error values of the lookup path, and `errors.Is` over the tree that wrapping builds. */
module LookupErrors {
  datatype Kind =
    | NoServers
    | AllServersFailed
    | NotFound
    | RateLimited
    | ServerError
    | InvalidResponse
    | RequestTimeout
    | BootstrapNotFound
    | BootstrapInvalidInput
    | BootstrapNotInitialized
    | WhoisDomainNotFound
    | Canceled
    | DeadlineExceeded

  /** `Foreign` is an error of a library: of the sentinels it can only carry the two of a context. */
  datatype Err =
    | Sentinel(kind: Kind)
    | Foreign(canceled: bool, deadline: bool)
    | Wrap(causes: seq<Err>)
  {
    /** Does this error, or anything it wraps, equal the sentinel `target`? */
    predicate Is(target: Kind) {
      match this
      case Sentinel(kind) => kind == target
      case Foreign(canceled, deadline) => (target.Canceled? && canceled) || (target.DeadlineExceeded? && deadline)
      case Wrap(causes) => exists c :: c in causes && c.Is(target)
    }
  }

  lemma IsOfWrap1(e: Err, target: Kind)
    ensures Wrap([e]).Is(target) <==> e.Is(target)
  {
    if e.Is(target) {
      assert e in [e];
    }
  }

  lemma IsOfWrap2(a: Err, b: Err, target: Kind)
    ensures Wrap([a, b]).Is(target) <==> a.Is(target) || b.Is(target)
  {
    if a.Is(target) || b.Is(target) {
      assert a in [a, b] && b in [a, b];
    }
  }
}
