/**
 * The memoised speaker resolver (`infer_speaker` and its `speaker_map`).
 * The map is an insertion-ordered dictionary, as Python's is: `entries`
 * holds the pairs and `order` the keys in the order they were added.
 */
module Speakers {
  import opened Text
  import opened Levenshtein

  /** The sentinel speaker for a marker line that names nobody. */
  const UnknownSpeaker: string := "UNKNOWN"

  datatype SpeakerMap = SpeakerMap(entries: map<string, string>, order: seq<string>)

  predicate NoDuplicates(s: seq<string>)
  {
    forall i, j :: 0 <= i < j < |s| ==> s[i] != s[j]
  }

  /** The first occurrence of every element, in order: the keys of `{s: s for s in known}`. */
  function Distinct(s: seq<string>): (r: seq<string>)
    ensures forall x :: x in r <==> x in s
    ensures NoDuplicates(r)
  {
    if |s| == 0 then []
    else
      var d := Distinct(s[..|s| - 1]);
      var x := s[|s| - 1];
      assert forall y :: y in s <==> y in s[..|s| - 1] || y == x;
      if x in d then d else d + [x]
  }

  /** `{s: s for s in known_speakers}`: every known speaker maps to itself. */
  function Seed(known: seq<string>): SpeakerMap
  {
    SpeakerMap(map s | s in known :: s, Distinct(known))
  }

  /**
   * What every reachable map satisfies: `order` lists exactly the keys, once
   * each; every value is a known speaker; every known speaker maps to itself.
   */
  predicate WellFormed(sm: SpeakerMap, known: seq<string>)
  {
    (forall k :: k in sm.order ==> k in sm.entries)
    && (forall k :: k in sm.entries ==> k in sm.order)
    && NoDuplicates(sm.order)
    && (forall k :: k in sm.entries ==> sm.entries[k] in known)
    && (forall s :: s in known ==> s in sm.entries && sm.entries[s] == s)
  }

  /** `after` keeps every entry of `before` unchanged and adds keys only at the end. */
  predicate Extends(before: SpeakerMap, after: SpeakerMap)
  {
    (forall k :: k in before.entries ==> k in after.entries && after.entries[k] == before.entries[k])
    && |before.order| <= |after.order| && after.order[..|before.order|] == before.order
  }

  lemma SeedWellFormed(known: seq<string>)
    ensures WellFormed(Seed(known), known)
  {
  }

  lemma {:induction false} ExtendsTransitive(a: SpeakerMap, b: SpeakerMap, c: SpeakerMap)
    requires Extends(a, b) && Extends(b, c)
    ensures Extends(a, c)
  {
    assert c.order[..|a.order|] == c.order[..|b.order|][..|a.order|];
  }

  /**
   * One call of `infer_speaker(speaker)` on map `sm`: the name it returns and
   * the map afterwards. With inference off the label comes back unchanged and
   * the map is untouched; otherwise a cached label returns its entry, and an
   * unseen one is resolved to its closest known speaker and memoised.
   */
  function Resolve(noInfer: bool, known: seq<string>, sm: SpeakerMap, raw: string): (res: (string, SpeakerMap))
    requires noInfer || |known| > 0
    ensures noInfer ==> res == (raw, sm)
    ensures !noInfer ==> raw in res.1.entries && res.0 == res.1.entries[raw]
    ensures res.1.entries.Keys == sm.entries.Keys + (if noInfer then {} else {raw})
    ensures Extends(sm, res.1)
    ensures !noInfer && raw !in sm.entries ==>
      res.0 in known && forall c :: c in known ==> Distance(raw, res.0) <= Distance(raw, c)
    ensures !noInfer && raw !in sm.entries ==> res.0 == ClosestMatch(raw, known)
  {
    if noInfer then (raw, sm)
    else if raw in sm.entries then (sm.entries[raw], sm)
    else
      var inferred := ClosestMatch(raw, known);
      (inferred, SpeakerMap(sm.entries[raw := inferred], sm.order + [raw]))
  }

  lemma ResolvePreservesWellFormed(noInfer: bool, known: seq<string>, sm: SpeakerMap, raw: string)
    requires noInfer || |known| > 0
    requires WellFormed(sm, known)
    ensures WellFormed(Resolve(noInfer, known, sm, raw).1, known)
  {
    var after := Resolve(noInfer, known, sm, raw).1;
    if !noInfer && raw !in sm.entries {
      assert after.order == sm.order + [raw];
      assert forall k :: k in after.order <==> k in sm.order || k == raw;
    }
  }

  /** With inference on, the name is always a known speaker. */
  lemma ResolveIsKnown(known: seq<string>, sm: SpeakerMap, raw: string)
    requires |known| > 0 && WellFormed(sm, known)
    ensures Resolve(false, known, sm, raw).0 in known
  {
  }

  /** A known speaker resolves to itself and leaves the map as it was, in either mode. */
  lemma ResolveKnownSpeaker(noInfer: bool, known: seq<string>, sm: SpeakerMap, raw: string)
    requires noInfer || |known| > 0
    requires WellFormed(sm, known) && raw in known
    ensures Resolve(noInfer, known, sm, raw) == (raw, sm)
  {
  }

  /** Asking again for the same raw gives the same name and changes nothing. */
  lemma ResolveIdempotent(noInfer: bool, known: seq<string>, sm: SpeakerMap, raw: string)
    requires noInfer || |known| > 0
    ensures var (name, after) := Resolve(noInfer, known, sm, raw);
      Resolve(noInfer, known, after, raw) == (name, after)
  {
  }

  /**
   * The resolver object: the known-speaker list and the no-infer flag are
   * fixed at creation, and `speakerMap` grows as labels are resolved.
   */
  class SpeakerResolver {
    const noInfer: bool
    const known: seq<string>
    var speakerMap: SpeakerMap

    ghost predicate Valid()
      reads this
    {
      (noInfer || |known| > 0) && WellFormed(speakerMap, known)
    }

    constructor (noInfer: bool, known: seq<string>)
      requires noInfer || |known| > 0
      ensures Valid()
      ensures this.noInfer == noInfer && this.known == known
      ensures speakerMap == Seed(known)
    {
      this.noInfer := noInfer;
      this.known := known;
      speakerMap := SpeakerMap(map s | s in known :: s, Distinct(known));
    }

    /** `infer_speaker(speaker)`. */
    method Infer(raw: string) returns (name: string)
      requires Valid()
      modifies this
      ensures Valid()
      ensures (name, speakerMap) == Resolve(noInfer, known, old(speakerMap), raw)
    {
      ResolvePreservesWellFormed(noInfer, known, speakerMap, raw);
      if noInfer {
        return raw;
      }
      if raw !in speakerMap.entries {
        var inferred := ClosestMatch(raw, known);
        speakerMap := SpeakerMap(speakerMap.entries[raw := inferred], speakerMap.order + [raw]);
        return inferred;
      } else {
        return speakerMap.entries[raw];
      }
    }
  }
}
