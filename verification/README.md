# Associative memory graph — a Dafny model

This project models `new_memory.py`, a small associative memory. A `Memory`
graph holds two kinds of record:

- confirmed records (`life_history`), each of which remembers its sense,
  its neuron number, an optional pattern list naming earlier records, and
  back-links (`linked_to`) to the records that named it later;
- provisional episodes (`life_episode`), which wait to be confirmed by
  attention.

Per-sense counters (`stats`) count the adds of each sense
(`number_registers`). Each sense that has had an episode filled also keeps
an occurrence count (`number_occurrences`). It is the number of confirmed
records that named the last episode filled under that sense, counted when
that episode was filled. Later adds do not update it.

A `History` holds three such graphs: biological, emotional and cultural.
It does three things:

- routes suffixed identifiers (`_b`, `_e`, `_c`) to one graph;
- broadcasts plain adds and episode fills to all three graphs;
- collects, per sense, the memory sequences of the dimensions a flag
  table selects.

Every operation is a pure function from state to state. An exception of
the source becomes an error value:

- `Result` for the operations that raise before they change anything;
- `Registry.Outcome` for the broadcast fill. That fill can raise half-way,
  and the graphs it has already reached keep their change.

The files:

- `types.dfy` (`MemoryTypes`) holds the shared vocabulary: records,
  episodes, counters and errors.
- `episodes.dfy` (`EpisodeLog`) models `life_episode` as an
  insertion-ordered association list. Like a Python dict, an overwrite
  keeps the entry's position.
- `traversal.dfy` (`Traversal`) models the recursive walk
  `_traverse_memory`.
- `memory.dfy` (`MemoryGraph`) models class `Memory`.
- `memory_facts.dfy` (`MemoryFacts`) holds properties that relate several
  `Memory` calls.
- `registry.dfy` (`Registry`) models class `History`.
- `scenario.dfy` (`Scenario`) follows the demo at the bottom of the source
  file step by step, to its final `get_memory_sequences` result.

The walk terminates only on acyclic pattern graphs. The source has no
visited set, so on a cycle it recurses until Python's recursion limit;
an acyclic chain deeper than that limit hits it too. The model therefore
takes a ghost `rank` map. The precondition `Ranked`
requires the rank to strictly decrease along every pattern reachable from
the start. That same condition also excludes the source's `KeyError` and
`TypeError` on a pattern that names no confirmed record. Two lemmas,
`ChainRankIndependent` and `ChainAllRankIndependent`, show that the result
does not depend on which rank is chosen.

Some behaviours of the code are worth stating plainly, because a reader
might expect otherwise:

- Attention takes the head of the chain string with `split(',')[0]`
  (line 57). It does not trim whitespace, and neither does
  `MemoryGraph.Head`.
- `History.fill_life_episode` (lines 151-153) fills the graphs one after
  the other. If the biological graph has counters for the sense but the
  emotional graph does not, the episode is stored in the biological graph
  and then the `KeyError` is raised. The change to the biological graph
  stays. `Registry.FillEpisode` returns that partly changed registry
  together with the error. `Scenario.FillRaisesAfterFirstGraph` shows
  such a run.
- `add_pattern` removes the suffix with `rstrip('_bce')`. That removes
  more than the two-character suffix; see Findings.
- In the demo, "Agrado" is stored in the biological graph by
  `add_pattern("Agrado_b", ...)`, so the biological sight chain ends in
  it. `Scenario.DemoSequences` proves the chain is `["Pelicula", "Tesis",
  "Cancion", "Agrado"]`.

## Model

| member | source | states |
|---|---|---|
| MemoryGraph.EmptyValid | new_memory.py:2-6 | the fresh graph satisfies the graph invariant: episode keys are distinct and every back-link names a confirmed record |
| MemoryGraph.AddLinks | new_memory.py:17-22 | each confirmed record gains one back-link to the new event per occurrence of its id in the pattern list, but only if the record has a pattern list of its own; absent entries and unknown ids are skipped; no record is added or removed |
| MemoryGraph.AddMemory | new_memory.py:8-35 | the event's record is replaced by a fresh one with no back-links, even when it already existed; every other record changes only by the back-links appended to it; the sense's register count rises by exactly one, starting at 1 for a new sense; the occurrence counts and the other senses are untouched; episodes are unchanged; the graph invariant is preserved |
| MemoryGraph.CountOccurrences | new_memory.py:45-48 | the loop counts exactly the confirmed records whose pattern list is present and names the event |
| MemoryGraph.FillEpisode | new_memory.py:37-50 | raises `UnknownSense` exactly when the sense has no counters yet, before anything changes; otherwise sets that sense's occurrence count to the number of records that name the event, keeps its register count and the other senses, and makes the episode findable under its event while every other id finds what it found before; an episode already stored keeps its place in insertion order and a new one goes at the end; confirmed records are untouched; the invariant is preserved |
| MemoryGraph.UpdateMemory | new_memory.py:52-54 | raises `MissingRecord` exactly when the event is not confirmed; otherwise the record's pattern list becomes the one-element list `[p]`, and its sense, neuron and back-links, all other records, episodes and counters are unchanged |
| MemoryGraph.Head | new_memory.py:57 | the head is the longest comma-free prefix of the chain: a prefix, containing no comma, that ends at the chain's end or at its first comma |
| MemoryGraph.HandleAttention | new_memory.py:56-69 | an unconfirmed head that has an episode is promoted by an add with the episode's fields, and its pattern list is `[p]` when a pattern is given; the promotion links back from every record the episode's own pattern list names, even when `p` then replaces the head's list; the sense's register count rises by one, while its occurrence count and the other senses are unchanged; a confirmed head is only re-pointed to `[p]`, and only when a pattern is given; in every other case the graph is unchanged; episodes are never touched; the invariant is preserved |
| MemoryGraph.Promote | new_memory.py:62-66 | promoting an episode adds its record with the episode's sense and neuron and no back-links; the pattern list is `[p]` when a pattern is given and the episode's own list otherwise; every other record gains one back-link per mention in the episode's own list; the sense's register count rises by one; its occurrence count, the other senses and the episodes are unchanged; the invariant is preserved |
| MemoryGraph.GetMemorySequence | new_memory.py:71-84 | the result is empty exactly when no episode has the sense; otherwise it starts with the event of the first such episode in insertion order and continues only with confirmed records |
| EpisodeLog.Put | new_memory.py:50 | after storing an episode, its event finds it and every other id finds what it found before; the key order keeps an existing key in place and appends a new one at the end; distinct keys stay distinct |
| EpisodeLog.PutIdempotent | new_memory.py:50 | storing the same episode twice is storing it once |
| EpisodeLog.Find | new_memory.py:58 | a found episode is in the log under the requested event, and nothing is found exactly when the event is not a key |
| EpisodeLog.IndexOfSense | new_memory.py:72 | picks the first episode of the sense in insertion order, and finds none exactly when no episode has that sense |
| Traversal.Chain | new_memory.py:86-93 | the walk from a record starts with that record and visits only confirmed records |
| Traversal.ChainVisitsReachable | new_memory.py:86-93 | an id occurs in the walk from `a` exactly when it is reachable from `a` through present pattern lists |
| Traversal.ChainAllVisitsReachable | new_memory.py:80-82 | an id occurs in the walks from a list of patterns exactly when it is reachable from one of them |
| Traversal.ChainAllAppend | new_memory.py:92-93 | the walk of a pattern list is the walks of its entries concatenated in list order: splitting the list anywhere splits the walk at the same place |
| Traversal.ChainAllSingle | new_memory.py:92-93 | the walk of a one-entry pattern list is the walk from that entry, so together with `ChainAllAppend` the walk of a list is the walks of its entries one after the other |
| Traversal.ChainRankIndependent | new_memory.py:86-93 | any two ranks that certify termination give the same walk |
| Traversal.ChainAllRankIndependent | new_memory.py:80-82 | any two ranks and bounds that certify termination give the same walks from a pattern list |
| MemoryFacts.RegistersCountAdds | new_memory.py:33-34 | after any run of adds, a sense's register count is its initial count plus the number of adds of that sense, overwrites included, and the sense has counters exactly when it had them before or was added |
| MemoryFacts.LastAddWins | new_memory.py:35 | the last add of an id decides its record's sense, neuron and pattern list, whatever came before it and whatever other ids are added after it |
| MemoryFacts.LinkedOnceMore | new_memory.py:17-22 | a record with a pattern list that is named once by a new record gains exactly one back-link, to the new record |
| MemoryFacts.UpdateLastWins | new_memory.py:52-54 | of two updates of the same record only the last pattern survives |
| MemoryFacts.FillEpisodeIdempotent | new_memory.py:37-50 | filling the same episode twice gives the same graph as filling it once |
| MemoryFacts.HandleAttentionIdempotent | new_memory.py:56-69 | attending to the same chain with the same pattern twice gives the same graph as attending once |
| MemoryFacts.HeadOfJoined | new_memory.py:57 | the head of `x,rest` is `x` whenever `x` has no comma, whatever `rest` holds |
| MemoryFacts.SequenceVisitsReachable | new_memory.py:71-93 | after its first element, the memory sequence holds exactly the records reachable from the root's patterns |
| MemoryFacts.SequenceRankIndependent | new_memory.py:71-93 | the memory sequence does not depend on the rank that certifies termination |
| Registry.ParseDimension | new_memory.py:104-108 | a key names a dimension exactly when it is one of the three names, and then it is that dimension's name |
| Registry.ParseName | new_memory.py:104-108 | each dimension's name parses back to that dimension |
| Registry.GetMemoryType | new_memory.py:137-149 | a classified identifier ends with its dimension's suffix, and none is found exactly when it ends with no suffix |
| Registry.GetMemoryTypeExact | new_memory.py:137-149 | an identifier is classified as `d` exactly when it ends with `d`'s suffix |
| Registry.RStrip | new_memory.py:130 | the result is a prefix whose last character is not strippable, and every removed character is strippable |
| Registry.RStripUnique | new_memory.py:130 | any prefix with those properties is the result of the strip |
| Registry.AddPattern | new_memory.py:124-131 | raises `InvalidPattern` exactly when no suffix matches; otherwise only the classified graph changes, by an add of the stripped identifier |
| Registry.AddPatternOverStrips | new_memory.py:130 | "Cafe_e" is stored in the emotional graph under "Caf" |
| Registry.AddPatternExact | new_memory.py:124-131 | the corrected add: same classification and error, but the stored identifier is the input with exactly its two-character suffix removed |
| Registry.AddPatternExactStoresName | new_memory.py:124-131 | a name with a dimension's suffix appended is stored under that name in that dimension only |
| Registry.AddMemory | new_memory.py:133-135 | the same add is performed in each of the three graphs, and each one then holds the fresh record for the event |
| Registry.AddMemoryIsRoutedAdds | new_memory.py:124-135 | a broadcast add of a name equals three routed adds of that name, one with each dimension's suffix, when the suffix is removed exactly |
| Registry.FillEpisode | new_memory.py:151-153 | the fill raises `UnknownSense` exactly when some graph lacks counters for the sense; every graph up to the first one lacking counters is filled, and every graph from that one on is unchanged |
| Registry.HandleAttention | new_memory.py:155-157 | raises `UnknownDimension` exactly when the key names no dimension; otherwise only the named graph changes, by its attention step |
| Registry.GetMemorySequences | new_memory.py:110-122 | the result has one entry per configured sense; an entry holds a dimension exactly when that dimension's flag is 1, and its value is that graph's memory sequence for the sense |
| Registry.AllFlagsOffEmpty | new_memory.py:113-120 | a sense with no flag equal to 1 maps to an empty entry |
| Scenario.ChainExample | new_memory.py:86-93 | in a three-record chain A→B→C the walk from A is A, B, C |
| Scenario.DemoPrintedState | new_memory.py:166-178 | after the two attention calls, the biological and emotional graphs each hold Agrado, Cancion, Tesis and Pelicula; Cancion links back to Tesis and Tesis to Pelicula; Agrado and Pelicula have no back-links; their sight counters are 4 registers with occurrence count 0; the two graphs differ only in Agrado's neuron, 1 against 89; the cultural graph holds only Cancion and Tesis, with 2 registers and occurrence count 0 |
| Scenario.DemoSequences | new_memory.py:166-208 | after the demo run, sight yields Pelicula, Tesis, Cancion, Agrado in the biological dimension only; every other sense yields empty sequences in exactly its flagged dimensions |
| Scenario.FillRaisesAfterFirstGraph | new_memory.py:151-153 | a broadcast fill whose sense has counters only in the biological graph stores the episode there and then raises, with the other graphs unchanged |

## Left out

- `Memory.get_stats`, `Memory.get_all` and `History.get_stats` are plain
  accessors. They are the fields `stats` and `history` of the model's
  state.
- The `print` calls of the demo are output only. `Scenario.DemoPrintedState`
  proves the state printed at lines 177-178: every graph's counters and the
  biological records. `Scenario.DemoSequences` proves the value printed at
  line 208.
- The `factor` field of `Memory` is stored and never read, so it is not
  modelled.
- Dimension keys are a datatype. An unknown key can only reach
  `History.handle_attention` (`Registry.HandleAttention`, error
  `UnknownDimension`).
- A flag entry is a record with all three dimensions. The `KeyError` that
  a source entry missing a dimension would raise is not modelled.
- Traversal.Chain: requires an acyclic, closed walk (the `Ranked`
  precondition). The source's unbounded recursion on a cycle, its
  `RecursionError`, and its `KeyError`/`TypeError` on a pattern that names
  no confirmed record are not modelled as values.
- Traversal.Chain: Python's recursion depth limit (about 1000 frames by
  default) is not modelled. An acyclic chain deeper than that raises
  `RecursionError` in the source, while the model returns the full walk.
- MemoryGraph.GetMemorySequence: requires a present root pattern list and
  a ranked walk (`SequenceDefined`). The `TypeError` the source raises when
  the root's pattern list is absent is not modelled as a value.
- Python's sharing of one pattern-list object among records is not
  modelled. The source never mutates a pattern list in place:
  `update_memory` replaces it with a new one. So the sharing is not
  observable.
- Parameters of any type other than strings, integers and
  optional lists are not modelled. Examples are a non-string event, or
  a pattern list that is some other iterable.

## Findings

| source | as written | input that shows it | evidently intended | confidence | as-written member | corrected member |
|---|---|---|---|---|---|---|
| new_memory.py:130 | `event.rstrip('_bce')` strips every trailing `_`, `b`, `c` or `e`, not just the two-character suffix | `add_pattern("Cafe_e", ...)` stores "Caf" in the emotional graph | strip exactly the matched suffix, storing "Cafe" | not executed | Registry.AddPattern, Registry.AddPatternOverStrips | Registry.AddPatternExact, Registry.AddPatternExactStoresName |
