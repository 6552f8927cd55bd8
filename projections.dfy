/**
 * What `main` prints from the blocks and the speaker map: the transcript
 * (one line per block), the inferred corrections (every map entry whose
 * value differs from its key, in insertion order) and the total duration
 * per speaker.
 */
module Projections {
  import opened Text
  import opened Speakers
  import opened Segmenter
  import opened SegmenterProperties

  // ---------------------------------------------------------------------
  // The transcript

  /** The speech of every block, in order. */
  function Speeches(blocks: seq<Block>): seq<string>
  {
    seq(|blocks|, j requires 0 <= j < |blocks| => blocks[j].speech)
  }

  /** `"\n".join(b.speech for b in blocks)`. */
  function Transcript(blocks: seq<Block>): string
  {
    JoinLines(Speeches(blocks))
  }

  /**
   * Line `j` of the transcript is block `j`'s speech, when no speech
   * itself holds a line break (a cue's text may hold one between other
   * characters, since normalising only strips the ends).
   */
  lemma TranscriptLines(blocks: seq<Block>)
    requires |blocks| > 0
    requires forall j :: 0 <= j < |blocks| ==> '\n' !in blocks[j].speech
    ensures var ls := SplitLines(Transcript(blocks));
      |ls| == |blocks| && forall j :: 0 <= j < |blocks| ==> ls[j] == blocks[j].speech
  {
    SplitJoin(Speeches(blocks));
  }

  // ---------------------------------------------------------------------
  // Corrections

  /** `[(k, v) for k, v in speaker_map.items() if k != v]`, in insertion order. */
  function Corrections(sm: SpeakerMap): seq<(string, string)>
    decreases |sm.order|
  {
    if |sm.order| == 0 then []
    else
      var k := sm.order[|sm.order| - 1];
      var rest := Corrections(sm.(order := sm.order[..|sm.order| - 1]));
      if k in sm.entries && sm.entries[k] != k then rest + [(k, sm.entries[k])] else rest
  }

  /** The corrections are exactly the entries whose value differs from their key. */
  lemma {:induction false} CorrectionsAreChangedEntries(sm: SpeakerMap)
    requires forall k :: k in sm.entries ==> k in sm.order
    ensures forall p :: p in Corrections(sm) <==> p.0 in sm.entries && sm.entries[p.0] == p.1 && p.0 != p.1
  {
    if |sm.order| > 0 {
      var n := |sm.order| - 1;
      var before := sm.(order := sm.order[..n]);
      var k := sm.order[n];
      CorrectionsOrderOnly(before);
      forall p | p in Corrections(sm)
        ensures p.0 in sm.entries && sm.entries[p.0] == p.1 && p.0 != p.1
      {
        if p !in Corrections(before) {
          assert p == (k, sm.entries[k]);
        }
      }
      forall p: (string, string) | p.0 in sm.entries && sm.entries[p.0] == p.1 && p.0 != p.1
        ensures p in Corrections(sm)
      {
        if p.0 != k {
          assert p.0 in sm.order[..n] by {
            var i :| 0 <= i < |sm.order| && sm.order[i] == p.0;
            assert i < n;
            assert sm.order[..n][i] == p.0;
          }
          CorrectionsOfListedKey(before, p);
        }
      }
    }
  }

  /** Every correction's key is listed in the insertion order. */
  lemma {:induction false} CorrectionsOrderOnly(sm: SpeakerMap)
    ensures forall p :: p in Corrections(sm) ==> p.0 in sm.order && p.0 in sm.entries && sm.entries[p.0] == p.1 && p.0 != p.1
    decreases |sm.order|
  {
    if |sm.order| > 0 {
      var n := |sm.order| - 1;
      CorrectionsOrderOnly(sm.(order := sm.order[..n]));
      forall p | p in Corrections(sm.(order := sm.order[..n])) ensures p.0 in sm.order {
        var i :| 0 <= i < n && sm.order[..n][i] == p.0;
        assert sm.order[i] == p.0;
      }
    }
  }

  /** A changed entry whose key is listed is a correction. */
  lemma {:induction false} CorrectionsOfListedKey(sm: SpeakerMap, p: (string, string))
    requires p.0 in sm.order && p.0 in sm.entries && sm.entries[p.0] == p.1 && p.0 != p.1
    ensures p in Corrections(sm)
    decreases |sm.order|
  {
    var n := |sm.order| - 1;
    if sm.order[n] != p.0 {
      var i :| 0 <= i < |sm.order| && sm.order[i] == p.0;
      assert sm.order[..n][i] == p.0;
      CorrectionsOfListedKey(sm.(order := sm.order[..n]), p);
    }
  }

  /** With inference off, nothing is corrected: the map is the identity seed. */
  lemma NoCorrectionsWithoutInference(known: seq<string>, cues: seq<Cue>)
    ensures Corrections(Run(true, known, cues).speakerMap) == []
  {
    RunSpeakers(true, known, cues);
    SeedHasNoCorrections(known);
  }

  /** The seed map is the identity, so it has no corrections. */
  lemma SeedHasNoCorrections(known: seq<string>)
    ensures Corrections(Seed(known)) == []
  {
    IdentityHasNoCorrections(Seed(known));
  }

  /** A map all of whose entries map a key to itself has no corrections. */
  lemma {:induction false} IdentityHasNoCorrections(sm: SpeakerMap)
    requires forall k :: k in sm.entries ==> sm.entries[k] == k
    ensures Corrections(sm) == []
    decreases |sm.order|
  {
    if |sm.order| > 0 {
      IdentityHasNoCorrections(sm.(order := sm.order[..|sm.order| - 1]));
    }
  }

  /**
   * With inference on, every correction maps a label that is not a known
   * speaker to a known speaker.
   */
  lemma CorrectionsAreInferences(known: seq<string>, cues: seq<Cue>)
    requires |known| > 0
    ensures forall p :: p in Corrections(Run(false, known, cues).speakerMap) ==> p.0 !in known && p.1 in known
  {
    RunSpeakers(false, known, cues);
    CorrectionsAreChangedEntries(Run(false, known, cues).speakerMap);
  }

  // ---------------------------------------------------------------------
  // Speaker times

  /** The summed durations of the blocks of speaker `s`. */
  function SpeakerTotal(blocks: seq<Block>, s: string): int
  {
    if |blocks| == 0 then 0
    else
      var b := blocks[|blocks| - 1];
      SpeakerTotal(blocks[..|blocks| - 1], s) + (if b.speaker == s then b.duration else 0)
  }

  /** Every block's speaker. */
  function SpeakerSet(blocks: seq<Block>): set<string>
  {
    set j | 0 <= j < |blocks| :: blocks[j].speaker
  }

  /**
   * The `speaker_times` dictionary: one key per speaker of some block,
   * holding that speaker's summed block durations.
   */
  method SpeakerTimes(blocks: seq<Block>) returns (times: map<string, int>)
    ensures times.Keys == SpeakerSet(blocks)
    ensures forall s :: s in times ==> times[s] == SpeakerTotal(blocks, s)
  {
    times := map[];
    for i := 0 to |blocks|
      invariant times.Keys == SpeakerSet(blocks[..i])
      invariant forall s :: s in times ==> times[s] == SpeakerTotal(blocks[..i], s)
    {
      var block := blocks[i];
      assert blocks[..i + 1][..i] == blocks[..i];
      assert blocks[..i + 1][i] == block;
      if block.speaker !in times {
        SpeakerTotalAbsent(blocks[..i], block.speaker);
      }
      SpeakerSetAppend(blocks[..i], block);
      assert blocks[..i] + [block] == blocks[..i + 1];
      times := times[block.speaker := (if block.speaker in times then times[block.speaker] else 0) + block.duration];
    }
    assert blocks[..|blocks|] == blocks;
  }

  lemma SpeakerSetAppend(blocks: seq<Block>, b: Block)
    ensures SpeakerSet(blocks + [b]) == SpeakerSet(blocks) + {b.speaker}
  {
    var bs := blocks + [b];
    forall s | s in SpeakerSet(bs) ensures s in SpeakerSet(blocks) + {b.speaker} {
      var j :| 0 <= j < |bs| && bs[j].speaker == s;
      if j < |blocks| {
        assert blocks[j].speaker == s;
      }
    }
    forall s | s in SpeakerSet(blocks) ensures s in SpeakerSet(bs) {
      var j :| 0 <= j < |blocks| && blocks[j].speaker == s;
      assert bs[j].speaker == s;
    }
    assert bs[|blocks|].speaker == b.speaker;
  }

  /** A speaker of no block has total zero. */
  lemma {:induction false} SpeakerTotalAbsent(blocks: seq<Block>, s: string)
    requires s !in SpeakerSet(blocks)
    ensures SpeakerTotal(blocks, s) == 0
  {
    if |blocks| > 0 {
      var n := |blocks| - 1;
      assert blocks[n].speaker in SpeakerSet(blocks);
      forall j | 0 <= j < n ensures blocks[..n][j].speaker != s {
        assert blocks[j].speaker in SpeakerSet(blocks);
      }
      SpeakerTotalAbsent(blocks[..n], s);
    }
  }

  /** The totals of the speakers in `names`, added up. */
  function TotalOver(blocks: seq<Block>, names: seq<string>): int
  {
    if |names| == 0 then 0 else TotalOver(blocks, names[..|names| - 1]) + SpeakerTotal(blocks, names[|names| - 1])
  }

  lemma {:induction false} TotalOverAppend(blocks: seq<Block>, b: Block, names: seq<string>)
    requires NoDuplicates(names)
    ensures TotalOver(blocks + [b], names) == TotalOver(blocks, names) + (if b.speaker in names then b.duration else 0)
  {
    assert (blocks + [b])[..|blocks|] == blocks;
    if |names| > 0 {
      var n := |names| - 1;
      var init := names[..n];
      assert NoDuplicates(init);
      TotalOverAppend(blocks, b, init);
      if b.speaker in init {
        var i :| 0 <= i < n && init[i] == b.speaker;
        assert names[i] == b.speaker;
      }
      assert b.speaker in names <==> b.speaker in init || b.speaker == names[n];
    }
  }

  /**
   * The per-speaker totals account for every block exactly once: over any
   * duplicate-free list of names holding every block's speaker, the totals
   * add up to the blocks' summed durations.
   */
  lemma {:induction false} SpeakerTotalsAddUp(blocks: seq<Block>, names: seq<string>)
    requires NoDuplicates(names)
    requires SpeakerSet(blocks) <= set i | 0 <= i < |names| :: names[i]
    ensures TotalOver(blocks, names) == TotalDuration(blocks)
  {
    if |blocks| == 0 {
      TotalOverZero(names);
    } else {
      var n := |blocks| - 1;
      var b := blocks[n];
      assert blocks == blocks[..n] + [b];
      SpeakerSetAppend(blocks[..n], b);
      SpeakerTotalsAddUp(blocks[..n], names);
      TotalOverAppend(blocks[..n], b, names);
      assert b.speaker in SpeakerSet(blocks);
      var i :| 0 <= i < |names| && names[i] == b.speaker;
    }
  }

  lemma {:induction false} TotalOverZero(names: seq<string>)
    ensures TotalOver([], names) == 0
  {
    if |names| > 0 {
      TotalOverZero(names[..|names| - 1]);
    }
  }
}
