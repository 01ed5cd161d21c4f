/** Termination measures of step systems whose participants each go through phases. */
module Progress {
  /** What all participants together still have to do, when `rank` says it of one phase. */
  function Work<P>(ps: seq<P>, rank: P -> nat): nat {
    if ps == [] then 0 else rank(ps[0]) + Work(ps[1..], rank)
  }

  /** Moving one participant changes the work by that participant's own difference. */
  lemma {:induction false} WorkOfUpdate<P>(ps: seq<P>, rank: P -> nat, i: nat, p: P)
    requires i < |ps|
    ensures Work(ps[i := p], rank) == Work(ps, rank) - rank(ps[i]) + rank(p)
  {
    if i == 0 {
      assert ps[i := p][1..] == ps[1..];
    } else {
      assert ps[i := p][1..] == ps[1..][i - 1 := p];
      WorkOfUpdate(ps[1..], rank, i - 1, p);
    }
  }
}
