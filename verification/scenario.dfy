/**
 Concrete runs: the chain example A -> [B] -> [C], the registry's demo run
 (two suffixed adds, two broadcasts, one broadcast episode, attention in two
 dimensions, then the per-sense sequences of its configuration table), and
 a broadcast fill that raises half-way.
 */
module Scenario {
  import opened MemoryTypes
  import opened EpisodeLog
  import opened Traversal
  import MemoryGraph
  import Registry
  import MemoryFacts

  const Sight: Sense := "sight"

  // ---------------------------------------------------------------------
  // A -> [B], B -> [C], C -> absent

  /** A confirmed chain whose head also has an episode with no patterns:
      the confirmed record takes precedence as the root. */
  const ChainGraph: MemoryGraph.Graph := MemoryGraph.Graph(
    map["A" := Record(Sight, 0, Some([Some("B")]), []),
        "B" := Record(Sight, 1, Some([Some("C")]), []),
        "C" := Record(Sight, 2, None, [])],
    [Episode("A", Sight, 0, None)],
    map[])

  const ChainRank: map<Id, nat> := map["A" := 2, "B" := 1, "C" := 0]

  lemma ChainExample()
    ensures MemoryGraph.SequenceDefined(ChainGraph, Sight, ChainRank)
    ensures MemoryGraph.GetMemorySequence(ChainGraph, Sight, ChainRank) == ["A", "B", "C"]
  {
    var h := ChainGraph.history;
    assert Ranked(h, ChainRank, "C");
    assert RankedBelow(h, ChainRank, Some("C"), 1);
    assert Ranked(h, ChainRank, "B");
    assert RankedBelow(h, ChainRank, Some("B"), 2);
    assert Chain(h, ChainRank, "C") == ["C"];
    assert Chain(h, ChainRank, "B") == ["B", "C"];
    assert ChainAll(h, ChainRank, [Some("B")], 2) == ["B", "C"];
    assert IndexOfSense(ChainGraph.episodes, Sight) == Some(0);
    var ps := [Some("B")];
    ChainAllRankIndependent(h, ChainRank, ChainRank, ps, Above(h, ChainRank, ps), 2);
  }

  // ---------------------------------------------------------------------
  // The registry's demo run

  /** The demo's per-sense configuration: which dimensions to traverse. */
  const Memories: map<Sense, Registry.Flags> := map[
    "hearing" := Registry.Flags(1, 1, 1),
    "touch" := Registry.Flags(1, 0, 1),
    "sight" := Registry.Flags(1, 0, 0),
    "smell" := Registry.Flags(1, 0, 0),
    "taste" := Registry.Flags(1, 0, 0)]

  const PeliculaPatterns: Patterns := Some([Some("Tesis")])

  /** The registry after the two suffixed adds of "Agrado". */
  function H2(): Registry.History
  {
    var h1 := Registry.AddPattern(Registry.Empty, "Agrado_b", Sight, 1, None).GetOr(Registry.Empty);
    Registry.AddPattern(h1, "Agrado_e", Sight, 89, None).GetOr(h1)
  }

  /** ... after the broadcasts of "Cancion" and "Tesis". */
  function H4(): Registry.History
  {
    var h3 := Registry.AddMemory(H2(), "Cancion", Sight, 2, Some([Some("Agrado")]));
    Registry.AddMemory(h3, "Tesis", Sight, 3, Some([Some("Cancion")]))
  }

  /** ... after the broadcast episode "Pelicula". */
  function H5(): Registry.History
  {
    Registry.FillEpisode(H4(), "Pelicula", Sight, 9, PeliculaPatterns).after
  }

  /** ... and after attention to "Pelicula,Tesis,Cancion" in the biological
      and then the emotional graph. */
  function DemoHistory(): Registry.History
  {
    var h6 := Registry.HandleAttention(H5(), "biological", "Pelicula,Tesis,Cancion", None).GetOr(H5());
    Registry.HandleAttention(h6, "emotional", "Pelicula,Tesis,Cancion", None).GetOr(h6)
  }

  const DemoRank: map<Id, nat> := map["Agrado" := 0, "Cancion" := 1, "Tesis" := 2, "Pelicula" := 3]

  const DemoRanks: map<Registry.Dimension, map<Id, nat>> :=
    map[Registry.Biological := DemoRank, Registry.Emotional := DemoRank, Registry.Cultural := DemoRank]

  /** "Agrado_b" stores "Agrado" in the biological graph only. */
  lemma AgradoBiological(h: Registry.History, n: int)
    ensures Registry.AddPattern(h, "Agrado_b", Sight, n, None)
            == Ok(h.(biological := MemoryGraph.AddMemory(h.biological, "Agrado", Sight, n, None)))
  {
    Registry.RStripUnique("Agrado_b", Registry.StripChars, "Agrado");
    assert Registry.EndsWith("Agrado_b", Registry.Suffix(Registry.Biological));
    assert !Registry.EndsWith("Agrado_b", Registry.Suffix(Registry.Emotional));
    assert !Registry.EndsWith("Agrado_b", Registry.Suffix(Registry.Cultural));
  }

  /** "Agrado_e" stores "Agrado" in the emotional graph only. */
  lemma AgradoEmotional(h: Registry.History, n: int)
    ensures Registry.AddPattern(h, "Agrado_e", Sight, n, None)
            == Ok(h.(emotional := MemoryGraph.AddMemory(h.emotional, "Agrado", Sight, n, None)))
  {
    Registry.RStripUnique("Agrado_e", Registry.StripChars, "Agrado");
    assert Registry.EndsWith("Agrado_e", Registry.Suffix(Registry.Emotional));
    assert !Registry.EndsWith("Agrado_e", Registry.Suffix(Registry.Biological));
    assert !Registry.EndsWith("Agrado_e", Registry.Suffix(Registry.Cultural));
  }

  /** "Agrado" is stored unsuffixed, each copy in its own dimension only. */
  lemma H2Shape()
    ensures H2().biological == MemoryGraph.AddMemory(MemoryGraph.Empty, "Agrado", Sight, 1, None)
    ensures H2().emotional == MemoryGraph.AddMemory(MemoryGraph.Empty, "Agrado", Sight, 89, None)
    ensures H2().cultural == MemoryGraph.Empty
  {
    AgradoBiological(Registry.Empty, 1);
    var h1 := Registry.AddPattern(Registry.Empty, "Agrado_b", Sight, 1, None).GetOr(Registry.Empty);
    AgradoEmotional(h1, 89);
  }

  /** The confirmed pattern lists every graph holds before attention. */
  ghost predicate ChainRecords(g: MemoryGraph.Graph)
  {
    && "Cancion" in g.history && g.history["Cancion"].patterns == Some([Some("Agrado")])
    && "Tesis" in g.history && g.history["Tesis"].patterns == Some([Some("Cancion")])
  }

  /** Each graph of `H4()` is its graph of `H2()` after the two adds. */
  lemma H4Graph(d: Registry.Dimension)
    ensures Registry.Get(H4(), d)
            == MemoryGraph.AddMemory(MemoryGraph.AddMemory(Registry.Get(H2(), d), "Cancion", Sight, 2, Some([Some("Agrado")])),
                                     "Tesis", Sight, 3, Some([Some("Cancion")]))
  {
  }

  /** An add changes no other record's pattern list. */
  lemma AddKeeps(g: MemoryGraph.Graph, e: Id, s: Sense, n: int, pl: Patterns, k: Id)
    requires k in g.history && k != e
    ensures var r := MemoryGraph.AddMemory(g, e, s, n, pl);
      k in r.history && r.history[k].patterns == g.history[k].patterns
  {
  }

  /** `r` is `g` after an add of `e`, whose pattern list names just `p`:
      `p` gains a link when it has a pattern list of its own, every other
      record is untouched, and `s` counts one more register. */
  ghost predicate NamingAdd(g: MemoryGraph.Graph, r: MemoryGraph.Graph, e: Id, p: Id, s: Sense, n: int)
  {
    && r.history.Keys == g.history.Keys + {e}
    && r.history[e] == Record(s, n, Some([Some(p)]), [])
    && (forall k :: k in g.history && k != p ==> r.history[k] == g.history[k])
    && (p in g.history && g.history[p].patterns.Some? ==>
          r.history[p] == g.history[p].(linkedTo := g.history[p].linkedTo + [e]))
    && (p in g.history && g.history[p].patterns == None ==> r.history[p] == g.history[p])
    && r.stats.Keys == g.stats.Keys + {s}
    && r.stats[s] == SenseStats((if s in g.stats then g.stats[s].registers else 0) + 1,
                                if s in g.stats then g.stats[s].occurrences else None)
    && r.episodes == g.episodes
  }

  /** What an add whose pattern list names just `p` does. */
  lemma {:induction false} AddNaming(g: MemoryGraph.Graph, e: Id, p: Id, s: Sense, n: int)
    requires e !in g.history && e != p
    ensures NamingAdd(g, MemoryGraph.AddMemory(g, e, s, n, Some([Some(p)])), e, p, s, n)
  {
    var r := MemoryGraph.AddMemory(g, e, s, n, Some([Some(p)]));
    forall k | k in g.history && k != p ensures r.history[k] == g.history[k] {
      assert multiset([Some(p)])[Some(k)] == 0;
    }
    assert multiset([Some(p)])[Some(p)] == 1;
    assert Repeat(e, 1) == [e];
  }

  /** The confirmed pattern lists every graph holds before attention. */
  lemma H4Shape(d: Registry.Dimension)
    ensures var g := Registry.Get(H4(), d);
      && ChainRecords(g)
      && ("Agrado" in g.history <==> d != Registry.Cultural)
      && ("Agrado" in g.history ==> g.history["Agrado"].patterns == None)
      && "Pelicula" !in g.history
      && Sight in g.stats
      && g.episodes == []
  {
    H4Records(d);
    AfterAddsShape(Registry.Get(H4(), d), AgradoNeuron(d), if d == Registry.Cultural then 2 else 3, None);
  }

  lemma H5Shape(d: Registry.Dimension)
    ensures var g := Registry.Get(H5(), d);
      && ChainRecords(g)
      && ("Agrado" in g.history <==> d != Registry.Cultural)
      && ("Agrado" in g.history ==> g.history["Agrado"].patterns == None)
      && "Pelicula" !in g.history
      && g.episodes == [Episode("Pelicula", Sight, 9, PeliculaPatterns)]
  {
    forall d' ensures Sight in Registry.Get(H4(), d').stats {
      H4Shape(d');
    }
    H4Shape(d);
    var g4 := Registry.Get(H4(), d);
    assert Registry.ReachedWith(H4(), Sight, d);
    var g5 := Registry.Filled(g4, "Pelicula", Sight, 9, PeliculaPatterns);
    assert Registry.Get(H5(), d) == g5;
    var ep := Episode("Pelicula", Sight, 9, PeliculaPatterns);
    assert Keys(g5.episodes) == [ep.event];
    assert |g5.episodes| == 1;
    assert g5.episodes[0] == ep;
  }

  /** The shape of a graph after the demo, in the biological and emotional
      dimensions. */
  ghost predicate DemoShape(g: MemoryGraph.Graph)
  {
    && ChainRecords(g)
    && "Agrado" in g.history && g.history["Agrado"].patterns == None
    && "Pelicula" in g.history && g.history["Pelicula"].patterns == PeliculaPatterns
    && g.episodes == [Episode("Pelicula", Sight, 9, PeliculaPatterns)]
  }

  const Attention: string := "Pelicula,Tesis,Cancion"

  /** Attention to the demo chain in one graph confirms the waiting
      "Pelicula" episode with its own pattern list. */
  lemma AttendShape(g5: MemoryGraph.Graph)
    requires ChainRecords(g5)
    requires "Agrado" in g5.history && g5.history["Agrado"].patterns == None
    requires "Pelicula" !in g5.history
    requires g5.episodes == [Episode("Pelicula", Sight, 9, PeliculaPatterns)]
    ensures DemoShape(MemoryGraph.HandleAttention(g5, Attention, None))
  {
    var pelicula, agrado, cancion, tesis: Id := "Pelicula", "Agrado", "Cancion", "Tesis";
    assert pelicula != agrado && pelicula != cancion && pelicula != tesis;
    assert Attention == pelicula + [','] + "Tesis,Cancion";
    MemoryFacts.HeadOfJoined(pelicula, "Tesis,Cancion");
    var ep := Episode(pelicula, Sight, 9, PeliculaPatterns);
    assert IndexOfKey(g5.episodes, pelicula) == Some(0);
    var g := MemoryGraph.HandleAttention(g5, Attention, None);
    assert g.history[pelicula].patterns == PeliculaPatterns;
    var pl := PeliculaPatterns;
    AddKeeps(g5, pelicula, Sight, 9, pl, agrado);
    AddKeeps(g5, pelicula, Sight, 9, pl, cancion);
    AddKeeps(g5, pelicula, Sight, 9, pl, tesis);
  }

  /** The two attention calls reach the biological and emotional graphs. */
  lemma DemoHistoryAttends()
    ensures DemoHistory() == Registry.History(
      MemoryGraph.HandleAttention(H5().biological, Attention, None),
      MemoryGraph.HandleAttention(H5().emotional, Attention, None),
      H5().cultural)
  {
    Registry.ParseName(Registry.Biological);
    Registry.ParseName(Registry.Emotional);
    var h5 := H5();
    var h6 := h5.(biological := MemoryGraph.HandleAttention(h5.biological, Attention, None));
    assert Registry.HandleAttention(h5, "biological", Attention, None) == Ok(h6);
    var h7 := h6.(emotional := MemoryGraph.HandleAttention(h6.emotional, Attention, None));
    assert Registry.HandleAttention(h6, "emotional", Attention, None) == Ok(h7);
  }

  /** The state before attention, as `H5Shape` describes each graph. */
  ghost predicate WaitingShape(g: MemoryGraph.Graph, hasAgrado: bool)
  {
    && ChainRecords(g)
    && ("Agrado" in g.history <==> hasAgrado)
    && ("Agrado" in g.history ==> g.history["Agrado"].patterns == None)
    && "Pelicula" !in g.history
    && g.episodes == [Episode("Pelicula", Sight, 9, PeliculaPatterns)]
  }

  /** Attention in the biological and emotional graphs of a history whose
      graphs are all waiting for "Pelicula". */
  lemma AttendedHistoryShape(b: MemoryGraph.Graph, e: MemoryGraph.Graph, c: MemoryGraph.Graph)
    requires WaitingShape(b, true) && WaitingShape(e, true) && WaitingShape(c, false)
    ensures var h := Registry.History(MemoryGraph.HandleAttention(b, Attention, None),
                                      MemoryGraph.HandleAttention(e, Attention, None), c);
      && DemoShape(h.biological) && DemoShape(h.emotional)
      && "Pelicula" !in h.cultural.history
      && forall d :: Registry.Get(h, d).episodes == [Episode("Pelicula", Sight, 9, PeliculaPatterns)]
  {
    var b', e' := MemoryGraph.HandleAttention(b, Attention, None), MemoryGraph.HandleAttention(e, Attention, None);
    AttendShape(b);
    AttendShape(e);
    var h := Registry.History(b', e', c);
    forall d ensures Registry.Get(h, d).episodes == [Episode("Pelicula", Sight, 9, PeliculaPatterns)] {
      match d
      case Biological => assert Registry.Get(h, d) == b';
      case Emotional => assert Registry.Get(h, d) == e';
      case Cultural => assert Registry.Get(h, d) == c;
    }
  }

  /** Attention confirms "Pelicula" in the two dimensions it was asked
      for; the cultural graph keeps it as an episode only. */
  lemma DemoHistoryShape()
    ensures DemoShape(DemoHistory().biological)
    ensures DemoShape(DemoHistory().emotional)
    ensures "Pelicula" !in DemoHistory().cultural.history
    ensures forall d :: Registry.Get(DemoHistory(), d).episodes == [Episode("Pelicula", Sight, 9, PeliculaPatterns)]
  {
    H5Shape(Registry.Biological);
    H5Shape(Registry.Emotional);
    H5Shape(Registry.Cultural);
    var h5 := H5();
    assert WaitingShape(h5.biological, true);
    assert WaitingShape(h5.emotional, true);
    assert WaitingShape(h5.cultural, false);
    DemoHistoryAttends();
    AttendedHistoryShape(h5.biological, h5.emotional, h5.cultural);
  }

  /** In a graph of the demo's shape the sight chain runs through the whole
      confirmed chain, down to "Agrado", whose pattern list is absent. */
  lemma DemoSightChain(g: MemoryGraph.Graph)
    requires DemoShape(g)
    ensures MemoryGraph.SequenceDefined(g, Sight, DemoRank)
    ensures MemoryGraph.GetMemorySequence(g, Sight, DemoRank) == ["Pelicula", "Tesis", "Cancion", "Agrado"]
  {
    var h := g.history;
    var r := DemoRank;
    assert Ranked(h, r, "Agrado");
    assert RankedBelow(h, r, Some("Agrado"), 1);
    assert Ranked(h, r, "Cancion");
    assert RankedBelow(h, r, Some("Cancion"), 2);
    assert Ranked(h, r, "Tesis");
    assert RankedBelow(h, r, Some("Tesis"), 3);
    assert Chain(h, r, "Agrado") == ["Agrado"];
    assert ChainAll(h, r, [Some("Agrado")], 1) == ["Agrado"];
    assert Chain(h, r, "Cancion") == ["Cancion", "Agrado"];
    assert ChainAll(h, r, [Some("Cancion")], 2) == ["Cancion", "Agrado"];
    assert Chain(h, r, "Tesis") == ["Tesis", "Cancion", "Agrado"];
    assert ChainAll(h, r, [Some("Tesis")], 3) == ["Tesis", "Cancion", "Agrado"];
    assert IndexOfSense(g.episodes, Sight) == Some(0);
    var ps := [Some("Tesis")];
    ChainAllRankIndependent(h, r, r, ps, Above(h, r, ps), 3);
  }

  /** A graph whose only episode is of sight has an empty sequence for
      every other sense. */
  lemma OtherSenseEmpty(g: MemoryGraph.Graph, s: Sense, rank: map<Id, nat>)
    requires g.episodes == [Episode("Pelicula", Sight, 9, PeliculaPatterns)]
    requires s != Sight
    ensures MemoryGraph.SequenceDefined(g, s, rank)
    ensures MemoryGraph.GetMemorySequence(g, s, rank) == []
  {
    assert IndexOfSense(g.episodes, s) == None;
  }

  /** One entry of the result for a sense other than sight: every flagged
      dimension, and only those, maps to the empty sequence. */
  lemma QuietEntry(h: Registry.History, s: Sense, expected: map<Registry.Dimension, seq<Id>>)
    requires forall d :: Registry.Get(h, d).episodes == [Episode("Pelicula", Sight, 9, PeliculaPatterns)]
    requires s in Memories && s != Sight
    requires Registry.SequencesDefined(h, Memories, DemoRanks)
    requires forall d :: d in expected <==> Registry.Flag(Memories[s], d) == 1
    requires forall d :: d in expected ==> expected[d] == []
    ensures Registry.GetMemorySequences(h, Memories, DemoRanks)[s] == expected
  {
    var e := Registry.GetMemorySequences(h, Memories, DemoRanks)[s];
    assert e.Keys == expected.Keys;
    forall d | d in e ensures e[d] == expected[d] {
      OtherSenseEmpty(Registry.Get(h, d), s, DemoRank);
    }
    SameEntriesMap(e, expected);
  }

  /** Maps with the same keys and the same value at each are equal. */
  lemma SameEntriesMap<K, V>(m: map<K, V>, n: map<K, V>)
    requires m.Keys == n.Keys && forall k :: k in m ==> m[k] == n[k]
    ensures m == n
  {
  }

  /** What the demo prints for `get_memory_sequences(MEMORIES)`, entry by
      entry: one entry per configured sense, each holding exactly the
      flagged dimensions, and only the sight chain non-empty. */
  ghost predicate DemoResult(r: map<Sense, map<Registry.Dimension, seq<Id>>>)
  {
    && r.Keys == Memories.Keys
    && r["hearing"] == map[Registry.Biological := [], Registry.Emotional := [], Registry.Cultural := []]
    && r["touch"] == map[Registry.Biological := [], Registry.Cultural := []]
    && r["sight"] == map[Registry.Biological := ["Pelicula", "Tesis", "Cancion", "Agrado"]]
    && r["smell"] == map[Registry.Biological := []]
    && r["taste"] == map[Registry.Biological := []]
  }

  /** Every traversal the demo's table asks for can return. */
  lemma DemoShapeDefined(h: Registry.History)
    requires DemoShape(h.biological)
    requires forall d :: Registry.Get(h, d).episodes == [Episode("Pelicula", Sight, 9, PeliculaPatterns)]
    ensures Registry.SequencesDefined(h, Memories, DemoRanks)
  {
    forall s, d | s in Memories && Registry.Flag(Memories[s], d) == 1
      ensures d in DemoRanks && MemoryGraph.SequenceDefined(Registry.Get(h, d), s, DemoRanks[d])
    {
      assert d in DemoRanks && DemoRanks[d] == DemoRank;
      if s == Sight {
        assert d == Registry.Biological by {
          MemoriesSight();
        }
        DemoSightChain(h.biological);
      } else {
        OtherSenseEmpty(Registry.Get(h, d), s, DemoRank);
      }
    }
  }

  /** The demo's table flags sight in the biological dimension only. */
  lemma MemoriesSight()
    ensures Sight in Memories && Memories[Sight] == Registry.Flags(1, 0, 0)
  {
  }

  /** A map whose only key is `k` is the one-entry map at `k`. */
  lemma SingleEntryMap<K, V>(m: map<K, V>, k: K)
    requires m.Keys == {k}
    ensures m == map[k := m[k]]
  {
  }

  /** A sense flagged in the biological dimension only maps to the
      biological traversal alone. */
  lemma BiologicalFlagEntry(h: Registry.History, params: map<Sense, Registry.Flags>,
                            ranks: map<Registry.Dimension, map<Id, nat>>, s: Sense)
    requires Registry.SequencesDefined(h, params, ranks)
    requires s in params && params[s] == Registry.Flags(1, 0, 0)
    ensures Registry.Biological in ranks
    ensures Registry.GetMemorySequences(h, params, ranks)[s]
            == map[Registry.Biological := MemoryGraph.GetMemorySequence(h.biological, s, ranks[Registry.Biological])]
  {
    var e := Registry.GetMemorySequences(h, params, ranks)[s];
    assert e.Keys == {Registry.Biological} by {
      assert Registry.Biological in e;
      assert Registry.Emotional !in e && Registry.Cultural !in e;
    }
    SingleEntryMap(e, Registry.Biological);
  }

  /** The sight entry holds the biological chain only. */
  lemma SightEntry(h: Registry.History)
    requires DemoShape(h.biological)
    requires Registry.SequencesDefined(h, Memories, DemoRanks)
    ensures Registry.GetMemorySequences(h, Memories, DemoRanks)[Sight]
            == map[Registry.Biological := ["Pelicula", "Tesis", "Cancion", "Agrado"]]
  {
    DemoSightChain(h.biological);
    MemoriesSight();
    assert DemoRanks[Registry.Biological] == DemoRank;
    BiologicalFlagEntry(h, Memories, DemoRanks, Sight);
  }

  lemma HearingEntry(h: Registry.History)
    requires forall d :: Registry.Get(h, d).episodes == [Episode("Pelicula", Sight, 9, PeliculaPatterns)]
    requires Registry.SequencesDefined(h, Memories, DemoRanks)
    ensures Registry.GetMemorySequences(h, Memories, DemoRanks)["hearing"]
            == map[Registry.Biological := [], Registry.Emotional := [], Registry.Cultural := []]
  {
    assert Memories["hearing"] == Registry.Flags(1, 1, 1);
    QuietEntry(h, "hearing", map[Registry.Biological := [], Registry.Emotional := [], Registry.Cultural := []]);
  }

  lemma TouchEntry(h: Registry.History)
    requires forall d :: Registry.Get(h, d).episodes == [Episode("Pelicula", Sight, 9, PeliculaPatterns)]
    requires Registry.SequencesDefined(h, Memories, DemoRanks)
    ensures Registry.GetMemorySequences(h, Memories, DemoRanks)["touch"]
            == map[Registry.Biological := [], Registry.Cultural := []]
  {
    assert Memories["touch"] == Registry.Flags(1, 0, 1);
    QuietEntry(h, "touch", map[Registry.Biological := [], Registry.Cultural := []]);
  }

  lemma BiologicalOnlyEntry(h: Registry.History, s: Sense)
    requires forall d :: Registry.Get(h, d).episodes == [Episode("Pelicula", Sight, 9, PeliculaPatterns)]
    requires Registry.SequencesDefined(h, Memories, DemoRanks)
    requires s == "smell" || s == "taste"
    ensures Registry.GetMemorySequences(h, Memories, DemoRanks)[s] == map[Registry.Biological := []]
  {
    assert Memories[s] == Registry.Flags(1, 0, 0);
    QuietEntry(h, s, map[Registry.Biological := []]);
  }

  /** `get_memory_sequences(MEMORIES)` on any registry of the demo's
      final shape. */
  lemma SequencesOfDemoShape(h: Registry.History)
    requires DemoShape(h.biological)
    requires forall d :: Registry.Get(h, d).episodes == [Episode("Pelicula", Sight, 9, PeliculaPatterns)]
    ensures Registry.SequencesDefined(h, Memories, DemoRanks)
    ensures DemoResult(Registry.GetMemorySequences(h, Memories, DemoRanks))
  {
    DemoShapeDefined(h);
    var r := Registry.GetMemorySequences(h, Memories, DemoRanks);
    SightEntry(h);
    HearingEntry(h);
    TouchEntry(h);
    BiologicalOnlyEntry(h, "smell");
    BiologicalOnlyEntry(h, "taste");

  }

  /** `get_memory_sequences(MEMORIES)` after the demo run: only the sight
      entry has a non-empty chain, and each entry holds exactly the
      dimensions its flags select. */
  lemma DemoSequences()
    ensures Registry.SequencesDefined(DemoHistory(), Memories, DemoRanks)
    ensures DemoResult(Registry.GetMemorySequences(DemoHistory(), Memories, DemoRanks))
  {
    DemoHistoryShape();
    SequencesOfDemoShape(DemoHistory());
  }

  // ---------------------------------------------------------------------
  // What the demo prints: every graph's counters and the biological records

  /** A graph after the broadcasts of `c`, naming `a`, and `t`, naming `c`:
      `a` is present with neuron `agrado.value` exactly when `agrado` is
      given, and sight has `regs` registers and occurrence count `occ`. */
  ghost predicate AfterAddsOf(g: MemoryGraph.Graph, a: Id, c: Id, t: Id, agrado: Option<int>, regs: nat, occ: Option<nat>)
  {
    && g.history.Keys == (if agrado.Some? then {a, c, t} else {c, t})
    && (agrado.Some? ==> g.history[a] == Record(Sight, agrado.value, None, []))
    && g.history[c] == Record(Sight, 2, Some([Some(a)]), [t])
    && g.history[t] == Record(Sight, 3, Some([Some(c)]), [])
    && g.stats.Keys == {Sight}
    && g.stats[Sight] == SenseStats(regs, occ)
  }

  /** The demo graphs after the broadcasts of "Cancion" and "Tesis". */
  ghost predicate AfterAdds(g: MemoryGraph.Graph, agrado: Option<int>, regs: nat, occ: Option<nat>)
  {
    AfterAddsOf(g, "Agrado", "Cancion", "Tesis", agrado, regs, occ)
  }

  /** The first add to an empty graph holds just that record and one
      register. */
  lemma FirstAdd(n: int)
    ensures var g := MemoryGraph.AddMemory(MemoryGraph.Empty, "Agrado", Sight, n, None);
      && g.history.Keys == {"Agrado"} && g.history["Agrado"] == Record(Sight, n, None, [])
      && g.stats.Keys == {Sight} && g.stats[Sight] == SenseStats(1, None)
      && g.episodes == []
  {
  }

  /** The broadcasts of `c`, naming `a`, then `t`, naming `c`, on a graph
      holding at most `a`: `c` has a pattern list, so it links back to `t`;
      `a` has none and gains no link. */
  lemma {:induction false} TwoAddsOf(g2: MemoryGraph.Graph, g3: MemoryGraph.Graph, g4: MemoryGraph.Graph,
                                     a: Id, c: Id, t: Id, agrado: Option<int>)
    requires a != c && a != t && c != t
    requires g2.history.Keys == (if agrado.Some? then {a} else {})
    requires agrado.Some? ==> g2.history[a] == Record(Sight, agrado.value, None, [])
    requires g2.stats.Keys == (if agrado.Some? then {Sight} else {})
    requires agrado.Some? ==> g2.stats[Sight] == SenseStats(1, None)
    requires NamingAdd(g2, g3, c, a, Sight, 2)
    requires NamingAdd(g3, g4, t, c, Sight, 3)
    ensures AfterAddsOf(g4, a, c, t, agrado, if agrado.Some? then 3 else 2, None)
    ensures g4.episodes == g2.episodes
  {
    assert g3.history[c] == Record(Sight, 2, Some([Some(a)]), []);
    assert agrado.Some? ==> g3.history[a] == g2.history[a];
  }

  /** The broadcasts of "Cancion" then "Tesis" on the demo graphs. */
  lemma TwoAddsRecords(g2: MemoryGraph.Graph, agrado: Option<int>)
    requires g2.history.Keys == (if agrado.Some? then {"Agrado"} else {})
    requires agrado.Some? ==> g2.history["Agrado"] == Record(Sight, agrado.value, None, [])
    requires g2.stats.Keys == (if agrado.Some? then {Sight} else {})
    requires agrado.Some? ==> g2.stats[Sight] == SenseStats(1, None)
    ensures var g3 := MemoryGraph.AddMemory(g2, "Cancion", Sight, 2, Some([Some("Agrado")]));
      var g4 := MemoryGraph.AddMemory(g3, "Tesis", Sight, 3, Some([Some("Cancion")]));
      AfterAdds(g4, agrado, if agrado.Some? then 3 else 2, None) && g4.episodes == g2.episodes
  {
    var g3 := MemoryGraph.AddMemory(g2, "Cancion", Sight, 2, Some([Some("Agrado")]));
    var g4 := MemoryGraph.AddMemory(g3, "Tesis", Sight, 3, Some([Some("Cancion")]));
    assert "Agrado" != "Cancion" && "Agrado" != "Tesis" && "Cancion" != "Tesis" by {
      DemoNamesDistinct();
    }
    assert NamingAdd(g2, g3, "Cancion", "Agrado", Sight, 2) by {
      AddNaming(g2, "Cancion", "Agrado", Sight, 2);
    }
    assert NamingAdd(g3, g4, "Tesis", "Cancion", Sight, 3) by {
      AddNaming(g3, "Tesis", "Cancion", Sight, 3);
    }
    TwoAddsOf(g2, g3, g4, "Agrado", "Cancion", "Tesis", agrado);
  }

  /** What the attention step needs of a demo graph after the two adds. */
  lemma AfterAddsShape(g: MemoryGraph.Graph, agrado: Option<int>, regs: nat, occ: Option<nat>)
    requires AfterAdds(g, agrado, regs, occ)
    ensures ChainRecords(g)
    ensures "Agrado" in g.history <==> agrado.Some?
    ensures "Agrado" in g.history ==> g.history["Agrado"].patterns == None
    ensures "Pelicula" !in g.history
    ensures Sight in g.stats
  {
    assert "Pelicula" !in {"Agrado", "Cancion", "Tesis"} && "Agrado" !in {"Cancion", "Tesis"} by {
      DemoNamesDistinct();
    }
  }

  /** The neuron "Agrado" was stored with in each dimension, if any. */
  function AgradoNeuron(d: Registry.Dimension): Option<int>
  {
    match d
    case Biological => Some(1)
    case Emotional => Some(89)
    case Cultural => None
  }

  /** Every graph of `H4()`: "Agrado" as its dimension stored it, the
      chain "Cancion" and "Tesis", and no episode yet. */
  lemma H4Records(d: Registry.Dimension)
    ensures AfterAdds(Registry.Get(H4(), d), AgradoNeuron(d), if d == Registry.Cultural then 2 else 3, None)
    ensures Registry.Get(H4(), d).episodes == []
  {
    var g2 := Registry.Get(H2(), d);
    assert g2.history.Keys == (if d == Registry.Cultural then {} else {"Agrado"})
      && (d != Registry.Cultural ==> g2.history["Agrado"] == Record(Sight, AgradoNeuron(d).value, None, []))
      && g2.stats.Keys == (if d == Registry.Cultural then {} else {Sight})
      && (d != Registry.Cultural ==> g2.stats[Sight] == SenseStats(1, None))
      && g2.episodes == [] by {
      H2Shape();
      FirstAdd(1);
      FirstAdd(89);
    }
    TwoAddsRecords(g2, AgradoNeuron(d));
    H4Graph(d);
  }

  /** Filling "Pelicula" counts no record naming it, and changes no record. */
  lemma FillRecords(g4: MemoryGraph.Graph, agrado: Option<int>, regs: nat)
    requires AfterAdds(g4, agrado, regs, None)
    ensures Sight in g4.stats
    ensures AfterAdds(Registry.Filled(g4, "Pelicula", Sight, 9, PeliculaPatterns), agrado, regs, Some(0))
  {
    assert MemoryGraph.Occurrences(g4.history, "Pelicula") == {};
  }

  /** A graph of `AfterAddsOf` once `e`, naming `t`, is confirmed: `t`
      links back to `e`, and sight has four registers and no occurrence. */
  ghost predicate PrintedOf(g: MemoryGraph.Graph, a: Id, c: Id, t: Id, e: Id, agrado: int)
  {
    && g.history.Keys == {a, c, t, e}
    && g.history[a] == Record(Sight, agrado, None, [])
    && g.history[c] == Record(Sight, 2, Some([Some(a)]), [t])
    && g.history[t] == Record(Sight, 3, Some([Some(c)]), [e])
    && g.history[e] == Record(Sight, 9, Some([Some(t)]), [])
    && g.stats.Keys == {Sight}
    && g.stats[Sight] == SenseStats(4, Some(0))
  }

  /** The biological or emotional graph after attention: "Pelicula" is
      confirmed, "Tesis" links back to it, and sight has one more register. */
  ghost predicate Printed(g: MemoryGraph.Graph, agrado: int)
  {
    PrintedOf(g, "Agrado", "Cancion", "Tesis", "Pelicula", agrado)
  }

  /** The demo's record names differ from one another. */
  lemma DemoNamesDistinct()
    ensures "Pelicula" !in {"Agrado", "Cancion", "Tesis"}
    ensures "Agrado" != "Cancion" && "Agrado" != "Tesis" && "Cancion" != "Tesis"
  {
    var p, a, c, t: Id := "Pelicula", "Agrado", "Cancion", "Tesis";
    assert p[0] != a[0] && p[0] != c[0] && p[0] != t[0];
    assert a[0] != c[0] && a[0] != t[0] && c[0] != t[0];
  }

  /** The demo's attention chain resolves to the waiting "Pelicula" episode. */
  lemma AttentionFindsPelicula(eps: seq<Episode>)
    requires eps == [Episode("Pelicula", Sight, 9, PeliculaPatterns)]
    ensures MemoryGraph.Head(Attention) == "Pelicula"
    ensures Find(eps, "Pelicula") == Some(Episode("Pelicula", Sight, 9, PeliculaPatterns))
  {
    var pelicula: Id := "Pelicula";
    assert Attention == pelicula + [','] + "Tesis,Cancion";
    MemoryFacts.HeadOfJoined(pelicula, "Tesis,Cancion");
    assert IndexOfKey(eps, pelicula) == Some(0);
  }

  /** Attention to a chain whose head is a waiting episode, with no new
      pattern, stores the episode as a plain add. */
  lemma AttendIsAdd(g5: MemoryGraph.Graph, chain: string, ep: Episode)
    requires MemoryGraph.Head(chain) == ep.event && Find(g5.episodes, ep.event) == Some(ep)
    requires ep.event !in g5.history
    ensures MemoryGraph.HandleAttention(g5, chain, None)
            == MemoryGraph.AddMemory(g5, ep.event, ep.sense, ep.neuron, ep.patterns)
  {
  }

  /** Attention to a chain headed by the waiting `ep`, whose pattern list
      names just `t`, in a graph holding `a`, `c` and `t` after the adds. */
  lemma {:induction false} AttendOf(g5: MemoryGraph.Graph, chain: string, ep: Episode, a: Id, c: Id, t: Id, agrado: int)
    requires ep.event !in {a, c, t} && a != c && a != t && c != t
    requires AfterAddsOf(g5, a, c, t, Some(agrado), 3, Some(0))
    requires MemoryGraph.Head(chain) == ep.event && Find(g5.episodes, ep.event) == Some(ep)
    requires ep == Episode(ep.event, Sight, 9, Some([Some(t)]))
    ensures PrintedOf(MemoryGraph.HandleAttention(g5, chain, None), a, c, t, ep.event, agrado)
  {
    var g := MemoryGraph.HandleAttention(g5, chain, None);
    assert NamingAdd(g5, g, ep.event, t, Sight, 9) by {
      AttendIsAdd(g5, chain, ep);
      AddNaming(g5, ep.event, t, Sight, 9);
    }
  }

  lemma AttendRecords(g5: MemoryGraph.Graph, agrado: int)
    requires AfterAdds(g5, Some(agrado), 3, Some(0))
    requires g5.episodes == [Episode("Pelicula", Sight, 9, PeliculaPatterns)]
    ensures Printed(MemoryGraph.HandleAttention(g5, Attention, None), agrado)
  {
    var ep := Episode("Pelicula", Sight, 9, PeliculaPatterns);
    assert MemoryGraph.Head(Attention) == ep.event && Find(g5.episodes, ep.event) == Some(ep) by {
      AttentionFindsPelicula(g5.episodes);
    }
    assert ep.event !in {"Agrado", "Cancion", "Tesis"} && "Agrado" != "Cancion" && "Agrado" != "Tesis" && "Cancion" != "Tesis" by {
      DemoNamesDistinct();
    }
    AttendOf(g5, Attention, ep, "Agrado", "Cancion", "Tesis", agrado);
  }

  /** The graphs each step of the demo produces, from the registry's
      operations. */
  lemma DemoGraphs(d: Registry.Dimension)
    ensures Sight in Registry.Get(H4(), d).stats
    ensures Registry.Get(H5(), d) == Registry.Filled(Registry.Get(H4(), d), "Pelicula", Sight, 9, PeliculaPatterns)
  {
    forall d' ensures Sight in Registry.Get(H4(), d').stats {
      H4Shape(d');
    }
    assert Registry.ReachedWith(H4(), Sight, d);
  }

  /** The state the demo prints before its sequences: every graph's sight
      counters, and the records of the biological graph, back-links
      included; the emotional graph matches it except for "Agrado"'s neuron,
      and the cultural graph never confirmed "Pelicula". */
  lemma DemoPrintedState()
    ensures Printed(DemoHistory().biological, 1)
    ensures Printed(DemoHistory().emotional, 89)
    ensures AfterAdds(DemoHistory().cultural, None, 2, Some(0))
  {
    H4Records(Registry.Biological);
    H4Records(Registry.Emotional);
    H4Records(Registry.Cultural);
    var b4, e4, c4 := H4().biological, H4().emotional, H4().cultural;
    FillRecords(b4, Some(1), 3);
    FillRecords(e4, Some(89), 3);
    FillRecords(c4, None, 2);
    DemoGraphs(Registry.Biological);
    DemoGraphs(Registry.Emotional);
    DemoGraphs(Registry.Cultural);
    H5Shape(Registry.Biological);
    H5Shape(Registry.Emotional);
    AttendRecords(H5().biological, 1);
    AttendRecords(H5().emotional, 89);
    DemoHistoryAttends();
  }

  // ---------------------------------------------------------------------
  // A broadcast fill that raises half-way

  /** After a single suffixed add to the biological graph, a broadcast
      episode of the same sense is stored in the biological graph and then
      raises on the emotional one, which has no counters for that sense:
      the failed call has still changed the registry. */
  lemma FillRaisesAfterFirstGraph()
    ensures var h1 := Registry.AddPattern(Registry.Empty, "Agrado_b", Sight, 1, None).GetOr(Registry.Empty);
      var o := Registry.FillEpisode(h1, "Pelicula", Sight, 9, PeliculaPatterns);
      && o.raised == Some(UnknownSense)
      && o.after.biological.episodes == [Episode("Pelicula", Sight, 9, PeliculaPatterns)]
      && o.after.emotional == h1.emotional
      && o.after.cultural == h1.cultural
  {
    Registry.RStripUnique("Agrado_b", Registry.StripChars, "Agrado");
    assert Registry.EndsWith("Agrado_b", Registry.Suffix(Registry.Biological));
    assert !Registry.EndsWith("Agrado_b", Registry.Suffix(Registry.Emotional));
    assert !Registry.EndsWith("Agrado_b", Registry.Suffix(Registry.Cultural));
    var h1 := Registry.AddPattern(Registry.Empty, "Agrado_b", Sight, 1, None).GetOr(Registry.Empty);
    assert Sight in h1.biological.stats && h1.biological.episodes == [];
    assert h1.emotional == MemoryGraph.Empty;
    var ep := Episode("Pelicula", Sight, 9, PeliculaPatterns);
    var b := Registry.Filled(h1.biological, "Pelicula", Sight, 9, PeliculaPatterns);
    assert Keys(b.episodes) == [ep.event];
    assert b.episodes[0] == ep;
  }
}
