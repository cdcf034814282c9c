/**
 `life_episode` is a Python dict, and dicts remember insertion order: the
 traversal picks the FIRST episode of a sense. It is modelled as an
 association list in which storing under an existing key overwrites the
 entry in place and storing under a new key appends it.
 */
module EpisodeLog {
  import opened MemoryTypes

  /** No key occurs twice: the list really is a dictionary. */
  ghost predicate KeysDistinct(eps: seq<Episode>)
  {
    forall i, j :: 0 <= i < j < |eps| ==> eps[i].event != eps[j].event
  }

  /** The keys in iteration order. */
  function Keys(eps: seq<Episode>): (r: seq<Id>)
    ensures |r| == |eps|
    ensures forall i :: 0 <= i < |eps| ==> r[i] == eps[i].event
  {
    if eps == [] then [] else [eps[0].event] + Keys(eps[1..])
  }

  /** Position of the first entry stored under `id`. */
  function IndexOfKey(eps: seq<Episode>, id: Id): (r: Option<nat>)
    ensures r.None? <==> forall j :: 0 <= j < |eps| ==> eps[j].event != id
    ensures r.Some? ==> r.value < |eps| && eps[r.value].event == id
    ensures r.Some? ==> forall j :: 0 <= j < r.value ==> eps[j].event != id
  {
    if eps == [] then None
    else if eps[0].event == id then Some(0)
    else match IndexOfKey(eps[1..], id)
      case None => None
      case Some(i) => Some(i + 1)
  }

  /** Position of the first entry, in iteration order, recorded under `s`. */
  function IndexOfSense(eps: seq<Episode>, s: Sense): (r: Option<nat>)
    ensures r.None? <==> forall j :: 0 <= j < |eps| ==> eps[j].sense != s
    ensures r.Some? ==> r.value < |eps| && eps[r.value].sense == s
    ensures r.Some? ==> forall j :: 0 <= j < r.value ==> eps[j].sense != s
  {
    if eps == [] then None
    else if eps[0].sense == s then Some(0)
    else match IndexOfSense(eps[1..], s)
      case None => None
      case Some(i) => Some(i + 1)
  }

  /** `life_episode.get(id)`. */
  function Find(eps: seq<Episode>, id: Id): (r: Option<Episode>)
    ensures r.Some? ==> r.value in eps && r.value.event == id
    ensures r.None? <==> id !in Keys(eps)
  {
    match IndexOfKey(eps, id)
    case None => None
    case Some(i) => Some(eps[i])
  }

  /** `life_episode[ep.event] = ep`. */
  function Put(eps: seq<Episode>, ep: Episode): (r: seq<Episode>)
    ensures Find(r, ep.event) == Some(ep)
    ensures forall id :: id != ep.event ==> Find(r, id) == Find(eps, id)
    ensures Keys(r) == if ep.event in Keys(eps) then Keys(eps) else Keys(eps) + [ep.event]
    ensures KeysDistinct(eps) ==> KeysDistinct(r)
  {
    match IndexOfKey(eps, ep.event)
    case None => AppendFacts(eps, ep); eps + [ep]
    case Some(i) => ReplaceFacts(eps, i, ep); eps[i := ep]
  }

  lemma AppendFacts(eps: seq<Episode>, ep: Episode)
    requires ep.event !in Keys(eps)
    ensures Find(eps + [ep], ep.event) == Some(ep)
    ensures forall id :: id != ep.event ==> Find(eps + [ep], id) == Find(eps, id)
    ensures Keys(eps + [ep]) == Keys(eps) + [ep.event]
    ensures KeysDistinct(eps) ==> KeysDistinct(eps + [ep])
  {
    var r := eps + [ep];
    assert IndexOfKey(r, ep.event) == Some(|eps|) by {
      assert forall j :: 0 <= j < |eps| ==> r[j] == eps[j];
      assert r[|eps|] == ep;
    }
    forall id | id != ep.event ensures Find(r, id) == Find(eps, id) {
      IndexOfKeyAppend(eps, ep, id);
    }
    assert Keys(r) == Keys(eps) + [ep.event] by {
      assert forall j :: 0 <= j < |eps| ==> r[j] == eps[j];
    }
  }

  lemma ReplaceFacts(eps: seq<Episode>, i: nat, ep: Episode)
    requires IndexOfKey(eps, ep.event) == Some(i)
    ensures Find(eps[i := ep], ep.event) == Some(ep)
    ensures forall id :: id != ep.event ==> Find(eps[i := ep], id) == Find(eps, id)
    ensures Keys(eps[i := ep]) == Keys(eps)
    ensures KeysDistinct(eps) ==> KeysDistinct(eps[i := ep])
  {
    var r := eps[i := ep];
    forall id ensures IndexOfKey(r, id) == IndexOfKey(eps, id) {
      IndexOfKeyReplace(eps, i, ep, id);
    }
    forall id | id != ep.event ensures Find(r, id) == Find(eps, id) {
      var k := IndexOfKey(eps, id);
      assert k.Some? ==> k.value != i && r[k.value] == eps[k.value];
    }
    assert Keys(r) == Keys(eps) by {
      assert forall j :: 0 <= j < |eps| ==> r[j].event == eps[j].event;
    }
  }
  lemma {:induction false} IndexOfKeyAppend(eps: seq<Episode>, ep: Episode, id: Id)
    requires id != ep.event
    ensures IndexOfKey(eps + [ep], id) == IndexOfKey(eps, id)
  {
    var a, b := IndexOfKey(eps + [ep], id), IndexOfKey(eps, id);
    if b.Some? {
      assert (eps + [ep])[b.value] == eps[b.value];
      assert a.Some? && a.value <= b.value;
      assert eps[a.value] == (eps + [ep])[a.value];
    } else {
      assert forall j :: 0 <= j < |eps| ==> (eps + [ep])[j] == eps[j];
    }
  }

  lemma {:induction false} IndexOfKeyReplace(eps: seq<Episode>, i: nat, ep: Episode, id: Id)
    requires i < |eps| && eps[i].event == ep.event
    ensures IndexOfKey(eps[i := ep], id) == IndexOfKey(eps, id)
  {
    var r := eps[i := ep];
    assert forall j :: 0 <= j < |eps| ==> r[j].event == eps[j].event;
  }

  /** Storing the same episode twice is storing it once. */
  lemma PutIdempotent(eps: seq<Episode>, ep: Episode)
    ensures Put(Put(eps, ep), ep) == Put(eps, ep)
  {
    var r := Put(eps, ep);
    var j := IndexOfKey(r, ep.event).value;
    assert r[j] == ep;
    assert r[j := ep] == r;
  }
}
