/**
 Properties of the memory graph that relate several calls: overwrite
 semantics over a run of adds, register counting, idempotence of the
 update operations, and what the memory sequence visits.
 */
module MemoryFacts {
  import opened MemoryTypes
  import opened EpisodeLog
  import opened Traversal
  import opened MemoryGraph

  // ---------------------------------------------------------------------
  // Runs of add_memory

  /** The arguments of one `add_memory` call. */
  datatype AddCall = AddCall(event: Id, sense: Sense, neuron: int, patterns: Patterns)

  /** The graph after performing `calls` in order. */
  function ApplyAdds(g: Graph, calls: seq<AddCall>): Graph
  {
    if calls == [] then g
    else
      var c := calls[|calls| - 1];
      AddMemory(ApplyAdds(g, calls[..|calls| - 1]), c.event, c.sense, c.neuron, c.patterns)
  }

  /** `number_registers` of `s`, reading a missing entry as 0. */
  function Registers(stats: map<Sense, SenseStats>, s: Sense): nat
  {
    if s in stats then stats[s].registers else 0
  }

  /** How many of `calls` record sense `s`. */
  function CountSense(calls: seq<AddCall>, s: Sense): nat
  {
    if calls == [] then 0
    else CountSense(calls[..|calls| - 1], s) + (if calls[|calls| - 1].sense == s then 1 else 0)
  }

  /** Every add counts exactly one register for its sense, overwrites
      included: the counters count calls, not records. */
  lemma {:induction false} RegistersCountAdds(g: Graph, calls: seq<AddCall>, s: Sense)
    ensures Registers(ApplyAdds(g, calls).stats, s) == Registers(g.stats, s) + CountSense(calls, s)
    ensures s in ApplyAdds(g, calls).stats <==> s in g.stats || CountSense(calls, s) > 0
  {
    if calls != [] {
      RegistersCountAdds(g, calls[..|calls| - 1], s);
    }
  }

  /** The last add of an id decides its record's sense, neuron and pattern
      list, whatever came before and whatever other ids were added after. */
  lemma {:induction false} LastAddWins(g: Graph, calls: seq<AddCall>, i: nat)
    requires i < |calls|
    requires forall j :: i < j < |calls| ==> calls[j].event != calls[i].event
    ensures calls[i].event in ApplyAdds(g, calls).history
    ensures var rec := ApplyAdds(g, calls).history[calls[i].event];
      rec.sense == calls[i].sense && rec.neuron == calls[i].neuron && rec.patterns == calls[i].patterns
  {
    var front := calls[..|calls| - 1];
    if i < |calls| - 1 {
      assert forall j :: i < j < |front| ==> front[j] == calls[j];
      LastAddWins(g, front, i);
    }
  }

  /** An existing record named once in the new record's pattern list, and
      itself holding a pattern list, gains exactly one more back-link. */
  lemma LinkedOnceMore(g: Graph, e: Id, s: Sense, n: int, ps: seq<Option<Id>>, b: Id)
    requires b in g.history && b != e && g.history[b].patterns.Some?
    requires multiset(ps)[Some(b)] == 1
    ensures var r := AddMemory(g, e, s, n, Some(ps));
      r.history[b].linkedTo == g.history[b].linkedTo + [e]
  {
    assert Repeat(e, 1) == [e];
  }

  // ---------------------------------------------------------------------
  // Idempotence of the overwriting operations

  /** `update_memory` keeps only the last pattern it was given. */
  lemma UpdateLastWins(g: Graph, e: Id, p: Option<Id>, q: Option<Id>)
    requires e in g.history
    ensures UpdateMemory(UpdateMemory(g, e, p).value, e, q) == UpdateMemory(g, e, q)
  {
    var h := g.history;
    var once := h[e := h[e].(patterns := Some([p]))];
    assert once[e := once[e].(patterns := Some([q]))] == h[e := h[e].(patterns := Some([q]))];
  }

  /** Filling the same episode twice is filling it once. */
  lemma FillEpisodeIdempotent(g: Graph, e: Id, s: Sense, n: int, pl: Patterns)
    requires s in g.stats
    ensures FillEpisode(FillEpisode(g, e, s, n, pl).value, e, s, n, pl) == FillEpisode(g, e, s, n, pl)
  {
    var ep := Episode(e, s, n, pl);
    var once := FillEpisode(g, e, s, n, pl).value;
    var twice := FillEpisode(once, e, s, n, pl).value;
    assert once.episodes == Put(g.episodes, ep) && twice.episodes == Put(once.episodes, ep);
    assert twice.episodes == once.episodes by {
      PutIdempotent(g.episodes, ep);
    }
    assert twice.stats == once.stats by {
      var stats := once.stats;
      assert stats[s := stats[s].(occurrences := Some(|Occurrences(once.history, e)|))] == stats;
    }
  }

  /** Attending to the same chain twice is attending to it once: the first
      call confirms the head, after which a second call can only re-point
      it at the same pattern. */
  lemma HandleAttentionIdempotent(g: Graph, chain: string, p: Option<Id>)
    ensures HandleAttention(HandleAttention(g, chain, p), chain, p) == HandleAttention(g, chain, p)
  {
    var head := Head(chain);
    var r := HandleAttention(g, chain, p);
    if head !in g.history && Find(g.episodes, head).Some? {
      assert head in r.history;
      if p.Some? {
        assert r.history[head].patterns == Some([p]);
        assert r.history[head := r.history[head].(patterns := Some([p]))] == r.history;
      }
    } else if head in g.history && p.Some? {
      assert r.history[head := r.history[head].(patterns := Some([p]))] == r.history;
    }
  }

  /** The head of a chain is the identifier written before its first
      comma, whatever follows. */
  lemma {:induction false} HeadOfJoined(x: string, rest: string)
    requires ',' !in x
    ensures Head(x + [','] + rest) == x
  {
    var c := x + [','] + rest;
    if x != [] {
      assert c[0] == x[0] && c[1..] == x[1..] + [','] + rest;
      HeadOfJoined(x[1..], rest);
    }
  }

  // ---------------------------------------------------------------------
  // get_memory_sequence

  /** The id of the first episode of `s` followed by the records reachable
      from its root's patterns: nothing else, and nothing left out. */
  lemma SequenceVisitsReachable(g: Graph, s: Sense, rank: map<Id, nat>, x: Id)
    requires SequenceDefined(g, s, rank)
    requires IndexOfSense(g.episodes, s).Some?
    ensures var ep := g.episodes[IndexOfSense(g.episodes, s).value];
      var ps := RootPatterns(g, ep).value;
      x in GetMemorySequence(g, s, rank)[1..] <==>
        exists j :: 0 <= j < |ps| && Reaches(g.history, rank, ps[j].value, x)
  {
    var ep := g.episodes[IndexOfSense(g.episodes, s).value];
    var ps := RootPatterns(g, ep).value;
    var bound := Above(g.history, rank, ps);
    ChainAllVisitsReachable(g.history, rank, ps, bound, x);
    assert GetMemorySequence(g, s, rank)[1..] == ChainAll(g.history, rank, ps, bound);
  }

  /** The sequence does not depend on which rank certifies termination. */
  lemma SequenceRankIndependent(g: Graph, s: Sense, r1: map<Id, nat>, r2: map<Id, nat>)
    requires SequenceDefined(g, s, r1) && SequenceDefined(g, s, r2)
    ensures GetMemorySequence(g, s, r1) == GetMemorySequence(g, s, r2)
  {
    match IndexOfSense(g.episodes, s)
    case None =>
    case Some(i) =>
      var ps := RootPatterns(g, g.episodes[i]).value;
      ChainAllRankIndependent(g.history, r1, r2, ps, Above(g.history, r1, ps), Above(g.history, r2, ps));
  }
}
