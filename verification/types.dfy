/**
 The shared vocabulary of the associative memory: event identifiers,
 confirmed records, provisional episodes, per-sense statistics and the
 error kinds the source raises.
 */
module MemoryTypes {

  /** Event identifiers and sense names are opaque strings. */
  type Id = string
  type Sense = string

  datatype Option<T> = None | Some(value: T)

  /** The exceptions the source raises, as values. */
  datatype Error =
    | UnknownSense      // KeyError on `stats[sense]` in fill_life_episode
    | MissingRecord     // KeyError on `life_history[event]` in update_memory
    | InvalidPattern    // ValueError in History.add_pattern
    | UnknownDimension  // attribute access on None in History.handle_attention

  datatype Result<T> = Ok(value: T) | Err(error: Error) {
    /** The value, or `default` when the call raised. */
    function GetOr(default: T): T
    {
      match this
      case Ok(v) => v
      case Err(_) => default
    }
  }

  /** A pattern list: absent (`None` in the source), or a list whose entries
      may themselves be absent; absent entries are skipped when linking. */
  type Patterns = Option<seq<Option<Id>>>

  /** A confirmed record of `life_history`. Its event id is the map key. */
  datatype Record = Record(sense: Sense, neuron: int, patterns: Patterns, linkedTo: seq<Id>)

  /** A provisional record of `life_episode`; it carries its own key. */
  datatype Episode = Episode(event: Id, sense: Sense, neuron: int, patterns: Patterns)

  /** Per-sense counters. `occurrences` is absent until the first episode
      of that sense is filled. */
  datatype SenseStats = SenseStats(registers: nat, occurrences: Option<nat>)

  /** True when the record's pattern list is present and names `e`. */
  predicate Mentions(rec: Record, e: Id)
  {
    rec.patterns.Some? && Some(e) in rec.patterns.value
  }

  /** `n` copies of `e`. */
  function Repeat(e: Id, n: nat): (r: seq<Id>)
    ensures |r| == n
    ensures forall i :: 0 <= i < n ==> r[i] == e
  {
    if n == 0 then [] else [e] + Repeat(e, n - 1)
  }

  lemma {:induction false} RepeatAdd(e: Id, a: nat, b: nat)
    ensures Repeat(e, a) + Repeat(e, b) == Repeat(e, a + b)
  {
    var l, r := Repeat(e, a) + Repeat(e, b), Repeat(e, a + b);
    assert |l| == |r|;
    forall i | 0 <= i < |l| ensures l[i] == r[i] {
      if i < a { assert l[i] == Repeat(e, a)[i]; } else { assert l[i] == Repeat(e, b)[i - a]; }
    }
  }
}
