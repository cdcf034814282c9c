/**
 The registry (class `History` of new_memory.py): three memory graphs under
 the keys `biological`, `emotional` and `cultural`, routing of suffixed ids
 to one graph, broadcasts to all three, and per-sense filtering of the
 traversal results.
 */
module Registry {
  import opened MemoryTypes
  import MemoryGraph

  type Graph = MemoryGraph.Graph

  datatype Dimension = Biological | Emotional | Cultural

  /** The registry owns one graph per dimension. */
  datatype History = History(biological: Graph, emotional: Graph, cultural: Graph)

  /** A freshly constructed `History`. */
  const Empty: History := History(MemoryGraph.Empty, MemoryGraph.Empty, MemoryGraph.Empty)

  function Get(h: History, d: Dimension): Graph
  {
    match d
    case Biological => h.biological
    case Emotional => h.emotional
    case Cultural => h.cultural
  }

  /** `h` with the graph of dimension `d` replaced by `g`. */
  function Set(h: History, d: Dimension, g: Graph): (r: History)
    ensures Get(r, d) == g
    ensures forall d' :: d' != d ==> Get(r, d') == Get(h, d')
  {
    match d
    case Biological => h.(biological := g)
    case Emotional => h.(emotional := g)
    case Cultural => h.(cultural := g)
  }

  /** The dictionary key of each dimension. */
  function Name(d: Dimension): string
  {
    match d
    case Biological => "biological"
    case Emotional => "emotional"
    case Cultural => "cultural"
  }

  /** `self.memories.get(key)`: the dimension stored under `key`, if any. */
  function ParseDimension(key: string): (r: Option<Dimension>)
    ensures r.Some? ==> Name(r.value) == key
    ensures r.None? <==> forall d :: Name(d) != key
  {
    if key == "biological" then Some(Biological)
    else if key == "emotional" then Some(Emotional)
    else if key == "cultural" then Some(Cultural)
    else None
  }

  /** Names and keys are in one-to-one correspondence. */
  lemma ParseName(d: Dimension)
    ensures ParseDimension(Name(d)) == Some(d)
  {
  }

  // ---------------------------------------------------------------------
  // get_memory_type

  /** The id suffix that routes an id to each dimension. */
  function Suffix(d: Dimension): string
  {
    match d
    case Biological => "_b"
    case Emotional => "_e"
    case Cultural => "_c"
  }

  /** `s.endswith(suf)`. */
  predicate EndsWith(s: string, suf: string)
  {
    |suf| <= |s| && s[|s| - |suf|..] == suf
  }

  /** `History.get_memory_type`: the dimension whose suffix ends `event`,
      trying `_b`, `_e`, `_c` in turn; none when no suffix matches. */
  function GetMemoryType(event: string): (r: Option<Dimension>)
    ensures r.Some? ==> EndsWith(event, Suffix(r.value))
    ensures r.None? <==> forall d :: !EndsWith(event, Suffix(d))
  {
    if EndsWith(event, "_b") then Some(Biological)
    else if EndsWith(event, "_e") then Some(Emotional)
    else if EndsWith(event, "_c") then Some(Cultural)
    else None
  }

  /** At most one suffix matches, so the order in which they are tried does
      not matter: an id ends in `Suffix(d)` exactly when it is routed to `d`. */
  lemma {:induction false} GetMemoryTypeExact(event: string, d: Dimension)
    ensures GetMemoryType(event) == Some(d) <==> EndsWith(event, Suffix(d))
  {
    if EndsWith(event, Suffix(d)) {
      var r := GetMemoryType(event);
      assert r.Some?;
      assert event[|event| - 1] == Suffix(d)[1] == Suffix(r.value)[1];
    }
  }

  // ---------------------------------------------------------------------
  // add_pattern

  /** The characters `add_pattern` strips: `event.rstrip('_bce')`. */
  const StripChars: set<char> := {'_', 'b', 'c', 'e'}

  /** Python's `s.rstrip(chars)`: drop trailing characters while they
      belong to `chars`. */
  function RStrip(s: string, chars: set<char>): (r: string)
    ensures r <= s
    ensures r == [] || r[|r| - 1] !in chars
    ensures forall i :: |r| <= i < |s| ==> s[i] in chars
  {
    if s == [] || s[|s| - 1] !in chars then s
    else RStrip(s[..|s| - 1], chars)
  }

  /** The three properties of `RStrip` pin its result down: it is the
      longest prefix that does not end in a stripped character. */
  lemma {:induction false} RStripUnique(s: string, chars: set<char>, p: string)
    requires p <= s
    requires p == [] || p[|p| - 1] !in chars
    requires forall i :: |p| <= i < |s| ==> s[i] in chars
    ensures p == RStrip(s, chars)
  {
    // `RStrip`'s own contract pins its length from both sides.
  }

  /** `History.add_pattern` as written: route by suffix, raise when no
      suffix matches, and add the record to that one graph under
      `event.rstrip('_bce')`; the other two graphs are unchanged. */
  function AddPattern(h: History, event: Id, s: Sense, n: int, pl: Patterns): (r: Result<History>)
    ensures r.Err? <==> forall d :: !EndsWith(event, Suffix(d))
    ensures r.Err? ==> r.error == InvalidPattern
    ensures forall d :: r.Ok? && EndsWith(event, Suffix(d)) ==>
      Get(r.value, d) == MemoryGraph.AddMemory(Get(h, d), RStrip(event, StripChars), s, n, pl)
    ensures forall d :: r.Ok? && !EndsWith(event, Suffix(d)) ==> Get(r.value, d) == Get(h, d)
  {
    match GetMemoryType(event)
    case None => Err(InvalidPattern)
    case Some(d) =>
      forall d' | EndsWith(event, Suffix(d')) ensures d' == d {
        GetMemoryTypeExact(event, d');
      }
      Ok(Set(h, d, MemoryGraph.AddMemory(Get(h, d), RStrip(event, StripChars), s, n, pl)))
  }

  /** `rstrip` removes more than the suffix whenever the name itself ends in
      one of the stripped letters: "Cafe_e" is stored as "Caf". */
  lemma AddPatternOverStrips(h: History, s: Sense, n: int, pl: Patterns)
    ensures AddPattern(h, "Cafe_e", s, n, pl).Ok?
    ensures Get(AddPattern(h, "Cafe_e", s, n, pl).value, Emotional)
            == MemoryGraph.AddMemory(Get(h, Emotional), "Caf", s, n, pl)
  {
    assert EndsWith("Cafe_e", Suffix(Emotional));
    var stripped := RStrip("Cafe_e", StripChars);
    RStripUnique("Cafe_e", StripChars, "Caf");
    assert stripped == "Caf";
  }

  /** `add_pattern` with the suffix removed exactly: the two characters
      that selected the dimension, and nothing more. */
  function AddPatternExact(h: History, event: Id, s: Sense, n: int, pl: Patterns): (r: Result<History>)
    ensures r.Err? <==> forall d :: !EndsWith(event, Suffix(d))
    ensures r.Err? ==> r.error == InvalidPattern
    ensures forall d :: r.Ok? && EndsWith(event, Suffix(d)) ==>
      Get(r.value, d) == MemoryGraph.AddMemory(Get(h, d), event[..|event| - 2], s, n, pl)
    ensures forall d :: r.Ok? && !EndsWith(event, Suffix(d)) ==> Get(r.value, d) == Get(h, d)
  {
    match GetMemoryType(event)
    case None => Err(InvalidPattern)
    case Some(d) =>
      forall d' | EndsWith(event, Suffix(d')) ensures d' == d {
        GetMemoryTypeExact(event, d');
      }
      Ok(Set(h, d, MemoryGraph.AddMemory(Get(h, d), event[..|event| - 2], s, n, pl)))
  }

  /** With exact stripping, a tagged name is stored under the bare name,
      whatever letters the name ends in. */
  lemma {:induction false} AddPatternExactStoresName(h: History, name: Id, d: Dimension, s: Sense, n: int, pl: Patterns)
    ensures AddPatternExact(h, name + Suffix(d), s, n, pl)
            == Ok(Set(h, d, MemoryGraph.AddMemory(Get(h, d), name, s, n, pl)))
  {
    var event := name + Suffix(d);
    assert event[|event| - 2..] == Suffix(d);
    assert event[..|event| - 2] == name;
    GetMemoryTypeExact(event, d);
  }

  // ---------------------------------------------------------------------
  // add_memory, fill_life_episode, handle_attention

  /** `History.add_memory`: the same, unstripped add on all three graphs. */
  function AddMemory(h: History, e: Id, s: Sense, n: int, pl: Patterns): (r: History)
    ensures forall d :: Get(r, d) == MemoryGraph.AddMemory(Get(h, d), e, s, n, pl)
    ensures forall d :: e in Get(r, d).history && Get(r, d).history[e] == Record(s, n, pl, [])
  {
    History(MemoryGraph.AddMemory(h.biological, e, s, n, pl),
            MemoryGraph.AddMemory(h.emotional, e, s, n, pl),
            MemoryGraph.AddMemory(h.cultural, e, s, n, pl))
  }

  /** One routed add with the exact suffix: the graph of `d` gets the add
      of `e`. */
  lemma {:induction false} RoutedAddStep(h: History, e: Id, d: Dimension, s: Sense, n: int, pl: Patterns)
    ensures AddPatternExact(h, e + Suffix(d), s, n, pl) == Ok(match d
      case Biological => h.(biological := MemoryGraph.AddMemory(h.biological, e, s, n, pl))
      case Emotional => h.(emotional := MemoryGraph.AddMemory(h.emotional, e, s, n, pl))
      case Cultural => h.(cultural := MemoryGraph.AddMemory(h.cultural, e, s, n, pl)))
  {
    AddPatternExactStoresName(h, e, d, s, n, pl);
  }

  /** A broadcast add is the three routed adds of the same name, one per
      suffix, when the suffix is removed exactly. */
  lemma {:induction false} AddMemoryIsRoutedAdds(h: History, e: Id, s: Sense, n: int, pl: Patterns)
    ensures var rb := AddPatternExact(h, e + Suffix(Biological), s, n, pl);
      rb.Ok? &&
      var re := AddPatternExact(rb.value, e + Suffix(Emotional), s, n, pl);
      re.Ok? &&
      var rc := AddPatternExact(re.value, e + Suffix(Cultural), s, n, pl);
      rc.Ok? && rc.value == AddMemory(h, e, s, n, pl)
  {
    RoutedAddStep(h, e, Biological, s, n, pl);
    var hb := AddPatternExact(h, e + Suffix(Biological), s, n, pl).value;
    RoutedAddStep(hb, e, Emotional, s, n, pl);
    var he := AddPatternExact(hb, e + Suffix(Emotional), s, n, pl).value;
    RoutedAddStep(he, e, Cultural, s, n, pl);
  }

  /** The registry after a call, and the exception it raised, if any: a
      broadcast that raises half-way leaves the graphs it already reached
      changed. */
  datatype Outcome = Outcome(after: History, raised: Option<Error>)

  /** Every graph from the first up to and including `d`, in iteration
      order, has counters for `s`. */
  predicate ReachedWith(h: History, s: Sense, d: Dimension)
  {
    && s in h.biological.stats
    && (d != Biological ==> s in h.emotional.stats)
    && (d == Cultural ==> s in h.cultural.stats)
  }

  /** `History.fill_life_episode`: fill the episode in each graph in
      iteration order, stopping at the first graph without counters for
      `s`; the graphs before it keep their update. */
  function FillEpisode(h: History, e: Id, s: Sense, n: int, pl: Patterns): (r: Outcome)
    ensures r.raised.None? <==> s in h.biological.stats && s in h.emotional.stats && s in h.cultural.stats
    ensures r.raised.Some? ==> r.raised.value == UnknownSense
    ensures forall d :: ReachedWith(h, s, d) ==>
      s in Get(h, d).stats && Get(r.after, d) == Filled(Get(h, d), e, s, n, pl)
    ensures forall d :: !ReachedWith(h, s, d) ==> Get(r.after, d) == Get(h, d)
  {
    if s !in h.biological.stats then Outcome(h, Some(UnknownSense))
    else
      var b := Filled(h.biological, e, s, n, pl);
      if s !in h.emotional.stats then Outcome(h.(biological := b), Some(UnknownSense))
      else
        var m := Filled(h.emotional, e, s, n, pl);
        if s !in h.cultural.stats then Outcome(h.(biological := b, emotional := m), Some(UnknownSense))
        else Outcome(History(b, m, Filled(h.cultural, e, s, n, pl)), None)
  }

  /** The graph after a fill that does not raise. */
  function Filled(g: Graph, e: Id, s: Sense, n: int, pl: Patterns): Graph
    requires s in g.stats
  {
    MemoryGraph.FillEpisode(g, e, s, n, pl).value
  }

  /** `History.handle_attention`: delegate to the graph stored under
      `key`; an unknown key raises before anything changes. */
  function HandleAttention(h: History, key: string, chain: string, p: Option<Id>): (r: Result<History>)
    ensures r.Err? <==> forall d :: Name(d) != key
    ensures r.Err? ==> r.error == UnknownDimension
    ensures forall d :: r.Ok? && Name(d) == key ==>
      Get(r.value, d) == MemoryGraph.HandleAttention(Get(h, d), chain, p)
    ensures forall d :: r.Ok? && Name(d) != key ==> Get(r.value, d) == Get(h, d)
  {
    match ParseDimension(key)
    case None => Err(UnknownDimension)
    case Some(d) => Ok(Set(h, d, MemoryGraph.HandleAttention(Get(h, d), chain, p)))
  }

  // ---------------------------------------------------------------------
  // get_memory_sequences

  /** One sense's entry of the configuration: an integer flag per
      dimension, of which only the value 1 selects the dimension. */
  datatype Flags = Flags(biological: int, emotional: int, cultural: int)

  function Flag(f: Flags, d: Dimension): int
  {
    match d
    case Biological => f.biological
    case Emotional => f.emotional
    case Cultural => f.cultural
  }

  const AllDimensions: set<Dimension> := {Biological, Emotional, Cultural}

  /** Every traversal the configuration asks for can return. */
  ghost predicate SequencesDefined(h: History, params: map<Sense, Flags>, ranks: map<Dimension, map<Id, nat>>)
  {
    forall s, d :: s in params && Flag(params[s], d) == 1 ==>
      d in ranks && MemoryGraph.SequenceDefined(Get(h, d), s, ranks[d])
  }

  /** `History.get_memory_sequences`: for every configured sense, the
      traversal of exactly the dimensions flagged 1 for it. */
  function GetMemorySequences(h: History, params: map<Sense, Flags>, ghost ranks: map<Dimension, map<Id, nat>>)
    : (r: map<Sense, map<Dimension, seq<Id>>>)
    requires SequencesDefined(h, params, ranks)
    ensures r.Keys == params.Keys
    ensures forall s, d :: s in params ==> (d in r[s] <==> Flag(params[s], d) == 1)
    ensures forall s, d :: s in params && d in r[s] ==>
      r[s][d] == MemoryGraph.GetMemorySequence(Get(h, d), s, ranks[d])
  {
    map s | s in params ::
      map d | d in AllDimensions && Flag(params[s], d) == 1 ::
        MemoryGraph.GetMemorySequence(Get(h, d), s, ranks[d])
  }

  /** A sense whose flags are all off maps to an empty entry, not to an
      entry of empty sequences. */
  lemma AllFlagsOffEmpty(h: History, params: map<Sense, Flags>, ranks: map<Dimension, map<Id, nat>>, s: Sense)
    requires SequencesDefined(h, params, ranks)
    requires s in params && forall d :: Flag(params[s], d) != 1
    ensures GetMemorySequences(h, params, ranks)[s] == map[]
  {
    var entry := GetMemorySequences(h, params, ranks)[s];
    assert entry.Keys == {};
  }
}
