/**
 Depth-first, pre-order reconstruction of a causal chain through the
 confirmed records (`Memory._traverse_memory`). The source has no cycle
 guard: a looping chain recurses forever. The model asks the caller for a
 rank on the records the walk reaches, every pattern strictly below the
 record naming it, which is exactly what a terminating walk needs.
 */
module Traversal {
  import opened MemoryTypes

  type LifeHistory = map<Id, Record>

  /** The walk from `id` is closed (every record it reaches exists and lists
      no absent entry) and acyclic (ranks strictly decrease along it). */
  ghost predicate Ranked(h: LifeHistory, rank: map<Id, nat>, id: Id)
    decreases if id in rank then rank[id] else 0
  {
    && id in h
    && id in rank
    && match h[id].patterns
       case None => true
       case Some(ps) => forall i :: 0 <= i < |ps| ==> RankedBelow(h, rank, ps[i], rank[id])
  }

  /** Pattern entry `p` is present, ranked below `bound`, and ranked itself. */
  ghost predicate RankedBelow(h: LifeHistory, rank: map<Id, nat>, p: Option<Id>, bound: nat)
    decreases bound, 0
  {
    && p.Some?
    && p.value in rank
    && rank[p.value] < bound
    && Ranked(h, rank, p.value)
  }

  /** Every entry of `ps` can be walked from. */
  ghost predicate AllRanked(h: LifeHistory, rank: map<Id, nat>, ps: seq<Option<Id>>)
  {
    forall i :: 0 <= i < |ps| ==> ps[i].Some? && Ranked(h, rank, ps[i].value)
  }

  /** A bound strictly above the rank of every entry of `ps`. */
  ghost function Above(h: LifeHistory, rank: map<Id, nat>, ps: seq<Option<Id>>): (b: nat)
    requires AllRanked(h, rank, ps)
    ensures forall i :: 0 <= i < |ps| ==> RankedBelow(h, rank, ps[i], b)
  {
    if ps == [] then 0
    else
      var rest := Above(h, rank, ps[1..]);
      var here := rank[ps[0].value] + 1;
      var b := if here < rest then rest else here;
      assert forall i :: 1 <= i < |ps| ==> ps[i] == ps[1..][i - 1];
      b
  }

  /** `_traverse_memory(life_history[id])`: the record's id, then the walk
      from each of its patterns in list order; a record whose pattern list
      is absent ends the walk. */
  function Chain(h: LifeHistory, ghost rank: map<Id, nat>, id: Id): (r: seq<Id>)
    requires Ranked(h, rank, id)
    ensures |r| >= 1 && r[0] == id
    ensures forall x :: x in r ==> x in h
    decreases rank[id], 1
  {
    match h[id].patterns
    case None => [id]
    case Some(ps) => [id] + ChainAll(h, rank, ps, rank[id])
  }

  /** The walks from every entry of `ps`, concatenated in list order. */
  function ChainAll(h: LifeHistory, ghost rank: map<Id, nat>, ps: seq<Option<Id>>, ghost bound: nat): (r: seq<Id>)
    requires forall i :: 0 <= i < |ps| ==> RankedBelow(h, rank, ps[i], bound)
    ensures |r| >= |ps|
    ensures forall x :: x in r ==> x in h
    decreases bound, 0, |ps|
  {
    if ps == [] then []
    else
      assert RankedBelow(h, rank, ps[0], bound);
      Chain(h, rank, ps[0].value) + ChainAll(h, rank, ps[1..], bound)
  }

  /** The walk of a pattern list is made of the walks of its parts, in
      list order: splitting the list anywhere splits the walk there. */
  lemma {:induction false} ChainAllAppend(h: LifeHistory, rank: map<Id, nat>, ps: seq<Option<Id>>, qs: seq<Option<Id>>, bound: nat)
    requires forall i :: 0 <= i < |ps| ==> RankedBelow(h, rank, ps[i], bound)
    requires forall i :: 0 <= i < |qs| ==> RankedBelow(h, rank, qs[i], bound)
    ensures forall i :: 0 <= i < |ps + qs| ==> RankedBelow(h, rank, (ps + qs)[i], bound)
    ensures ChainAll(h, rank, ps + qs, bound) == ChainAll(h, rank, ps, bound) + ChainAll(h, rank, qs, bound)
    decreases |ps|
  {
    assert forall i :: 0 <= i < |ps + qs| ==> (ps + qs)[i] == if i < |ps| then ps[i] else qs[i - |ps|];
    if ps == [] {
      assert ps + qs == qs;
    } else {
      assert (ps + qs)[1..] == ps[1..] + qs;
      ChainAllAppend(h, rank, ps[1..], qs, bound);
    }
  }

  /** The walk of a one-entry pattern list is the walk from that entry. */
  lemma ChainAllSingle(h: LifeHistory, rank: map<Id, nat>, p: Id, bound: nat)
    requires RankedBelow(h, rank, Some(p), bound)
    ensures ChainAll(h, rank, [Some(p)], bound) == Chain(h, rank, p)
  {
    assert [Some(p)][1..] == [];
  }

  /** `b` is `a` or is reached from one of `a`'s patterns. */
  ghost predicate Reaches(h: LifeHistory, rank: map<Id, nat>, a: Id, b: Id)
    requires Ranked(h, rank, a)
    decreases rank[a]
  {
    || a == b
    || match h[a].patterns
       case None => false
       case Some(ps) => exists i :: 0 <= i < |ps| && RankedBelow(h, rank, ps[i], rank[a]) && Reaches(h, rank, ps[i].value, b)
  }

  /** The walk visits exactly the records reachable from its start. */
  lemma {:induction false} ChainVisitsReachable(h: LifeHistory, rank: map<Id, nat>, a: Id, b: Id)
    requires Ranked(h, rank, a)
    ensures b in Chain(h, rank, a) <==> Reaches(h, rank, a, b)
    decreases rank[a], 1
  {
    match h[a].patterns
    case None =>
    case Some(ps) =>
      ChainAllVisitsReachable(h, rank, ps, rank[a], b);
  }

  lemma {:induction false} ChainAllVisitsReachable(h: LifeHistory, rank: map<Id, nat>, ps: seq<Option<Id>>, bound: nat, b: Id)
    requires forall i :: 0 <= i < |ps| ==> RankedBelow(h, rank, ps[i], bound)
    ensures b in ChainAll(h, rank, ps, bound) <==>
            exists i :: 0 <= i < |ps| && Reaches(h, rank, ps[i].value, b)
    decreases bound, 0, |ps|
  {
    if ps != [] {
      assert RankedBelow(h, rank, ps[0], bound);
      ChainVisitsReachable(h, rank, ps[0].value, b);
      ChainAllVisitsReachable(h, rank, ps[1..], bound, b);
      assert forall i :: 1 <= i < |ps| ==> ps[i] == ps[1..][i - 1];
      if exists i :: 0 <= i < |ps| && Reaches(h, rank, ps[i].value, b) {
        var i :| 0 <= i < |ps| && Reaches(h, rank, ps[i].value, b);
        if i > 0 {
          assert ps[1..][i - 1] == ps[i];
        }
      }
    }
  }

  /** The walk does not depend on which rank certifies its termination. */
  lemma {:induction false} ChainRankIndependent(h: LifeHistory, r1: map<Id, nat>, r2: map<Id, nat>, id: Id)
    requires Ranked(h, r1, id) && Ranked(h, r2, id)
    ensures Chain(h, r1, id) == Chain(h, r2, id)
    decreases r1[id], 1
  {
    match h[id].patterns
    case None =>
    case Some(ps) =>
      ChainAllRankIndependent(h, r1, r2, ps, r1[id], r2[id]);
  }

  lemma {:induction false} ChainAllRankIndependent(h: LifeHistory, r1: map<Id, nat>, r2: map<Id, nat>,
                                                   ps: seq<Option<Id>>, b1: nat, b2: nat)
    requires forall i :: 0 <= i < |ps| ==> RankedBelow(h, r1, ps[i], b1)
    requires forall i :: 0 <= i < |ps| ==> RankedBelow(h, r2, ps[i], b2)
    ensures ChainAll(h, r1, ps, b1) == ChainAll(h, r2, ps, b2)
    decreases b1, 0, |ps|
  {
    if ps != [] {
      assert RankedBelow(h, r1, ps[0], b1) && RankedBelow(h, r2, ps[0], b2);
      ChainRankIndependent(h, r1, r2, ps[0].value);
      ChainAllRankIndependent(h, r1, r2, ps[1..], b1, b2);
    }
  }
}
