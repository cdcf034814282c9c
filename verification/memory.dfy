/**
 One memory dimension (class `Memory` of new_memory.py): confirmed records
 with their reverse links, provisional episodes in insertion order, and
 per-sense counters. Every operation is a pure function from the graph
 before the call to the graph after it.
 */
module MemoryGraph {
  import opened MemoryTypes
  import opened EpisodeLog
  import opened Traversal

  datatype Graph = Graph(history: LifeHistory, episodes: seq<Episode>, stats: map<Sense, SenseStats>)

  /** A freshly constructed `Memory`. */
  const Empty: Graph := Graph(map[], [], map[])

  /** The state every reachable graph is in: `life_episode` has unique keys
      and every id in a `linked_to` list names a confirmed record. */
  ghost predicate Valid(g: Graph)
  {
    && KeysDistinct(g.episodes)
    && forall k, i :: k in g.history && 0 <= i < |g.history[k].linkedTo| ==> g.history[k].linkedTo[i] in g.history
  }

  lemma EmptyValid()
    ensures Valid(Empty)
  {
  }

  // ---------------------------------------------------------------------
  // add_memory

  /** How many times adding `e` with pattern list `pl` appends `e` to the
      `linked_to` of the existing record `rec` stored under `k`: once per
      occurrence of `k` in `pl`, provided `rec` has a pattern list. */
  function LinkGain(rec: Record, k: Id, pl: Patterns): nat
  {
    if pl.Some? && rec.patterns.Some? then multiset(pl.value)[Some(k)] else 0
  }

  /** One iteration of the linking loop: append `e` to the record named by
      pattern entry `p`, when that record exists and has a pattern list. */
  function LinkOne(h: LifeHistory, e: Id, p: Option<Id>): LifeHistory
  {
    if p.Some? && p.value in h && h[p.value].patterns.Some? then
      h[p.value := h[p.value].(linkedTo := h[p.value].linkedTo + [e])]
    else h
  }

  /** The whole linking loop over `ps`, in list order. */
  function AddLinks(h: LifeHistory, e: Id, ps: seq<Option<Id>>): (r: LifeHistory)
    ensures r.Keys == h.Keys
    ensures forall k :: k in h ==>
      r[k] == h[k].(linkedTo := h[k].linkedTo + Repeat(e, LinkGain(h[k], k, Some(ps))))
    decreases |ps|
  {
    if ps == [] then h
    else
      var h1 := LinkOne(h, e, ps[0]);
      var r := AddLinks(h1, e, ps[1..]);
      assert forall k :: k in h ==> r[k] == h[k].(linkedTo := h[k].linkedTo + Repeat(e, LinkGain(h[k], k, Some(ps)))) by {
        forall k | k in h
          ensures r[k] == h[k].(linkedTo := h[k].linkedTo + Repeat(e, LinkGain(h[k], k, Some(ps))))
        {
          LinkStep(h, e, ps, k);
        }
      }
      r
  }

  /** One loop iteration accounts for the first entry's share of the gain. */
  lemma LinkStep(h: LifeHistory, e: Id, ps: seq<Option<Id>>, k: Id)
    requires ps != [] && k in h
    ensures var h1 := LinkOne(h, e, ps[0]);
      && k in h1
      && h1[k] == h[k].(linkedTo := h1[k].linkedTo)
      && h1[k].linkedTo + Repeat(e, LinkGain(h1[k], k, Some(ps[1..])))
         == h[k].linkedTo + Repeat(e, LinkGain(h[k], k, Some(ps)))
  {
    var h1 := LinkOne(h, e, ps[0]);
    var first := if ps[0] == Some(k) && h[k].patterns.Some? then 1 else 0;
    assert ps == [ps[0]] + ps[1..];
    assert h1[k].linkedTo == h[k].linkedTo + Repeat(e, first);
    assert LinkGain(h[k], k, Some(ps)) == first + LinkGain(h1[k], k, Some(ps[1..]));
    RepeatAdd(e, first, LinkGain(h1[k], k, Some(ps[1..])));
  }

  /** The counters after one more confirmed record of sense `s`. */
  function Bump(stats: map<Sense, SenseStats>, s: Sense): map<Sense, SenseStats>
  {
    if s in stats then stats[s := stats[s].(registers := stats[s].registers + 1)]
    else stats[s := SenseStats(1, None)]
  }

  /** `Memory.add_memory`: store a fresh record for `e` (overwriting any
      earlier one, its `linked_to` included), link `e` into the records its
      patterns name, and count one more register for `s`. */
  function AddMemory(g: Graph, e: Id, s: Sense, n: int, pl: Patterns): (r: Graph)
    ensures r.history.Keys == g.history.Keys + {e}
    ensures r.history[e] == Record(s, n, pl, [])
    ensures forall k :: k in g.history && k != e ==>
      r.history[k] == g.history[k].(linkedTo := g.history[k].linkedTo + Repeat(e, LinkGain(g.history[k], k, pl)))
    ensures r.episodes == g.episodes
    ensures r.stats.Keys == g.stats.Keys + {s}
    ensures r.stats[s].registers == (if s in g.stats then g.stats[s].registers + 1 else 1)
    ensures r.stats[s].occurrences == (if s in g.stats then g.stats[s].occurrences else None)
    ensures forall t :: t in g.stats && t != s ==> r.stats[t] == g.stats[t]
    ensures Valid(g) ==> Valid(r)
  {
    var linked := match pl
      case None => g.history
      case Some(ps) => AddLinks(g.history, e, ps);
    assert forall k :: k in g.history ==>
      linked[k] == g.history[k].(linkedTo := g.history[k].linkedTo + Repeat(e, LinkGain(g.history[k], k, pl)));
    var r := Graph(linked[e := Record(s, n, pl, [])], g.episodes, Bump(g.stats, s));
    AddKeepsLinksValid(g, r.history, e, pl);
    r
  }

  /** Links added towards the new record `e` name a confirmed record, so an
      add keeps `Valid`. */
  lemma AddKeepsLinksValid(g: Graph, h: LifeHistory, e: Id, pl: Patterns)
    requires h.Keys == g.history.Keys + {e} && h[e].linkedTo == []
    requires forall k :: k in g.history && k != e ==>
      h[k].linkedTo == g.history[k].linkedTo + Repeat(e, LinkGain(g.history[k], k, pl))
    ensures Valid(g) ==> forall k, i :: k in h && 0 <= i < |h[k].linkedTo| ==> h[k].linkedTo[i] in h
  {
    if Valid(g) {
      forall k, i | k in h && 0 <= i < |h[k].linkedTo| ensures h[k].linkedTo[i] in h {
        if k != e && i < |g.history[k].linkedTo| {
          assert h[k].linkedTo[i] == g.history[k].linkedTo[i];
        }
      }
    }
  }

  // ---------------------------------------------------------------------
  // fill_life_episode

  /** The confirmed records whose pattern list names `e`. */
  function Occurrences(h: LifeHistory, e: Id): set<Id>
  {
    set k | k in h && Mentions(h[k], e)
  }

  /** The records among `ks` whose pattern list names `e`. */
  ghost function MentionsAmong(h: LifeHistory, e: Id, ks: set<Id>): set<Id>
    requires ks <= h.Keys
  {
    set k | k in ks && Mentions(h[k], e)
  }

  /** Scanning one more record adds it exactly when it names `e`. */
  lemma MentionsAmongStep(h: LifeHistory, e: Id, ks: set<Id>, k: Id)
    requires ks <= h.Keys && k in h && k !in ks
    ensures |MentionsAmong(h, e, ks + {k})| == |MentionsAmong(h, e, ks)| + (if Mentions(h[k], e) then 1 else 0)
  {
    if Mentions(h[k], e) {
      assert MentionsAmong(h, e, ks + {k}) == MentionsAmong(h, e, ks) + {k};
    } else {
      assert MentionsAmong(h, e, ks + {k}) == MentionsAmong(h, e, ks);
    }
  }

  /** The occurrence loop of `fill_life_episode`: a scan over every
      confirmed record counting those whose pattern list names `e`. */
  method CountOccurrences(h: LifeHistory, e: Id) returns (n: nat)
    ensures n == |Occurrences(h, e)|
  {
    n := 0;
    var todo := h.Keys;
    ghost var seen: set<Id> := {};
    while todo != {}
      invariant todo !! seen && todo + seen == h.Keys
      invariant n == |MentionsAmong(h, e, seen)|
      decreases |todo|
    {
      var k :| k in todo;
      MentionsAmongStep(h, e, seen, k);
      if Mentions(h[k], e) {
        n := n + 1;
      }
      todo := todo - {k};
      seen := seen + {k};
    }
    assert MentionsAmong(h, e, seen) == Occurrences(h, e);
  }

  /** `Memory.fill_life_episode`: raises when `s` has no counters yet;
      otherwise recounts the occurrences of `e` into `s`'s counters and
      stores the episode. Confirmed records are untouched. */
  function FillEpisode(g: Graph, e: Id, s: Sense, n: int, pl: Patterns): (r: Result<Graph>)
    ensures r.Err? <==> s !in g.stats
    ensures r.Err? ==> r.error == UnknownSense
    ensures r.Ok? ==> r.value.history == g.history
    ensures r.Ok? ==> r.value.stats.Keys == g.stats.Keys
    ensures r.Ok? ==> r.value.stats[s] == SenseStats(g.stats[s].registers, Some(|Occurrences(g.history, e)|))
    ensures r.Ok? ==> forall t :: t in g.stats && t != s ==> r.value.stats[t] == g.stats[t]
    ensures r.Ok? ==> Find(r.value.episodes, e) == Some(Episode(e, s, n, pl))
    ensures r.Ok? ==> Keys(r.value.episodes) == if e in Keys(g.episodes) then Keys(g.episodes) else Keys(g.episodes) + [e]
    ensures r.Ok? ==> forall id :: id != e ==> Find(r.value.episodes, id) == Find(g.episodes, id)
    ensures r.Ok? && Valid(g) ==> Valid(r.value)
  {
    if s !in g.stats then Err(UnknownSense)
    else
      var count := |Occurrences(g.history, e)|;
      Ok(Graph(g.history,
               Put(g.episodes, Episode(e, s, n, pl)),
               g.stats[s := g.stats[s].(occurrences := Some(count))]))
  }

  // ---------------------------------------------------------------------
  // update_memory

  /** `Memory.update_memory`: the record's pattern list becomes exactly
      `[p]`, whatever it held before; raises when `e` is not confirmed. */
  function UpdateMemory(g: Graph, e: Id, p: Option<Id>): (r: Result<Graph>)
    ensures r.Err? <==> e !in g.history
    ensures r.Err? ==> r.error == MissingRecord
    ensures r.Ok? ==> r.value.history.Keys == g.history.Keys
    ensures r.Ok? ==> r.value.history[e].patterns == Some([p])
    ensures r.Ok? ==> r.value.history[e].sense == g.history[e].sense
    ensures r.Ok? ==> r.value.history[e].neuron == g.history[e].neuron
    ensures r.Ok? ==> r.value.history[e].linkedTo == g.history[e].linkedTo
    ensures r.Ok? ==> forall k :: k in g.history && k != e ==> r.value.history[k] == g.history[k]
    ensures r.Ok? ==> r.value.episodes == g.episodes && r.value.stats == g.stats
    ensures r.Ok? && Valid(g) ==> Valid(r.value)
  {
    if e !in g.history then Err(MissingRecord)
    else Ok(g.(history := g.history[e := g.history[e].(patterns := Some([p]))]))
  }

  // ---------------------------------------------------------------------
  // handle_attention

  /** `chain.split(',')[0]`: everything before the first comma, untrimmed. */
  function Head(chain: string): (r: string)
    ensures r <= chain
    ensures ',' !in r
    ensures |r| == |chain| || chain[|r|] == ','
  {
    if chain == [] || chain[0] == ',' then []
    else [chain[0]] + Head(chain[1..])
  }

  /** The promotion branch of `handle_attention`: add the waiting episode
      as a confirmed record, with the links its own pattern list earns, then
      re-point it at `p` when one is given. */
  function Promote(g: Graph, ep: Episode, p: Option<Id>): (r: Graph)
    requires ep.event !in g.history
    ensures r.episodes == g.episodes
    ensures r.history.Keys == g.history.Keys + {ep.event}
    ensures r.history[ep.event] == Record(ep.sense, ep.neuron, if p.Some? then Some([p]) else ep.patterns, [])
    ensures forall k :: k in g.history ==>
      r.history[k] == g.history[k].(linkedTo := g.history[k].linkedTo + Repeat(ep.event, LinkGain(g.history[k], k, ep.patterns)))
    ensures r.stats.Keys == g.stats.Keys + {ep.sense}
    ensures r.stats[ep.sense].registers == (if ep.sense in g.stats then g.stats[ep.sense].registers + 1 else 1)
    ensures r.stats[ep.sense].occurrences == (if ep.sense in g.stats then g.stats[ep.sense].occurrences else None)
    ensures forall t :: t in g.stats && t != ep.sense ==> r.stats[t] == g.stats[t]
    ensures Valid(g) ==> Valid(r)
  {
    var added := AddMemory(g, ep.event, ep.sense, ep.neuron, ep.patterns);
    if p.Some? then UpdateMemory(added, ep.event, p).value else added
  }

  /** `Memory.handle_attention`: resolve the head of `chain`. An episode
      that is not yet confirmed is promoted (and re-pointed at `p` when one
      is given); a confirmed record is only re-pointed, and only when `p` is
      given; otherwise nothing happens. Episodes are never touched. */
  function HandleAttention(g: Graph, chain: string, p: Option<Id>): (r: Graph)
    ensures r.episodes == g.episodes
    ensures var head := Head(chain);
      head !in g.history && Find(g.episodes, head).Some? ==>
        var ep := Find(g.episodes, head).value;
        && r.history.Keys == g.history.Keys + {head}
        && r.history[head] == Record(ep.sense, ep.neuron, if p.Some? then Some([p]) else ep.patterns, [])
        && (forall k :: k in g.history ==>
              r.history[k] == g.history[k].(linkedTo := g.history[k].linkedTo + Repeat(head, LinkGain(g.history[k], k, ep.patterns))))
        && r.stats.Keys == g.stats.Keys + {ep.sense}
        && r.stats[ep.sense].registers == (if ep.sense in g.stats then g.stats[ep.sense].registers + 1 else 1)
        && r.stats[ep.sense].occurrences == (if ep.sense in g.stats then g.stats[ep.sense].occurrences else None)
        && (forall t :: t in g.stats && t != ep.sense ==> r.stats[t] == g.stats[t])
    ensures var head := Head(chain);
      head in g.history && p.Some? ==>
        && r.history == g.history[head := g.history[head].(patterns := Some([p]))]
        && r.stats == g.stats
    ensures var head := Head(chain);
      (head !in g.history && Find(g.episodes, head).None?) || (head in g.history && p.None?) ==>
        r == g
    ensures Valid(g) ==> Valid(r)
  {
    var head := Head(chain);
    match Find(g.episodes, head)
    case Some(ep) =>
      if head !in g.history then Promote(g, ep, p)
      else if p.Some? then UpdateMemory(g, head, p).value
      else g
    case None =>
      if head in g.history && p.Some? then UpdateMemory(g, head, p).value
      else g
  }

  // ---------------------------------------------------------------------
  // get_memory_sequence

  /** The pattern list the traversal starts from: the confirmed record's
      when the episode has been confirmed, the episode's own otherwise. */
  function RootPatterns(g: Graph, ep: Episode): Patterns
  {
    if ep.event in g.history then g.history[ep.event].patterns else ep.patterns
  }

  /** What `get_memory_sequence(s)` needs in order to return: when an
      episode of `s` exists, its root has a pattern list and every walk from
      it is closed and acyclic, as witnessed by `rank`. */
  ghost predicate SequenceDefined(g: Graph, s: Sense, rank: map<Id, nat>)
  {
    match IndexOfSense(g.episodes, s)
    case None => true
    case Some(i) =>
      var root := RootPatterns(g, g.episodes[i]);
      root.Some? && AllRanked(g.history, rank, root.value)
  }

  /** `Memory.get_memory_sequence`: the first episode of `s` in insertion
      order, followed by the depth-first, pre-order walk from its root's
      patterns; empty when no episode has sense `s`. */
  function GetMemorySequence(g: Graph, s: Sense, ghost rank: map<Id, nat>): (r: seq<Id>)
    requires SequenceDefined(g, s, rank)
    ensures r == [] <==> forall i :: 0 <= i < |g.episodes| ==> g.episodes[i].sense != s
    ensures r != [] ==> exists i :: 0 <= i < |g.episodes| && g.episodes[i].sense == s && r[0] == g.episodes[i].event
                                    && forall j :: 0 <= j < i ==> g.episodes[j].sense != s
    ensures forall i :: 1 <= i < |r| ==> r[i] in g.history
  {
    match IndexOfSense(g.episodes, s)
    case None => []
    case Some(i) =>
      var ep := g.episodes[i];
      var ps := RootPatterns(g, ep).value;
      [ep.event] + ChainAll(g.history, rank, ps, Above(g.history, rank, ps))
  }
}
