/**
 * What the segmentation computes, stated without the loop's state: the
 * duplicate filter keeps a cue exactly when its normalised text differs from
 * the previous cue's; the accepted lines split at their marker lines into
 * groups; every group but the last becomes one block, whose speech,
 * times, duration and speaker are determined by the group alone.
 */
module SegmenterProperties {
  import opened Wrappers
  import opened Text
  import opened Speakers
  import opened Segmenter

  /** The normalised text of the cue before the next one, `""` at the beginning. */
  function PrevLine(cues: seq<Cue>): string
  {
    if |cues| == 0 then "" else Normalize(cues[|cues| - 1].text)
  }

  /**
   * The cues that pass the duplicate filter, with normalised text: cue `i`
   * is kept when its line differs from cue `i - 1`'s line (from `""` for the
   * first cue), whether or not cue `i - 1` was itself kept.
   */
  function Accepted(cues: seq<Cue>): seq<Cue>
  {
    if |cues| == 0 then []
    else
      var prefix, c := cues[..|cues| - 1], cues[|cues| - 1];
      Accepted(prefix) + (if Normalize(c.text) == PrevLine(prefix) then [] else [c.(text := Normalize(c.text))])
  }

  /** The positions of the marker lines among `lines`, in increasing order. */
  function MarkerPositions(lines: seq<Cue>): (r: seq<int>)
    ensures forall j :: 0 <= j < |r| ==> 0 <= r[j] < |lines| && IsMarker(lines[r[j]].text)
  {
    if |lines| == 0 then []
    else
      var n := |lines| - 1;
      var rest := MarkerPositions(lines[..n]);
      rest + (if IsMarker(lines[n].text) then [n] else [])
  }

  /** Summed cue durations. */
  function SumDurations(g: seq<Cue>): int
  {
    if |g| == 0 then 0 else SumDurations(g[..|g| - 1]) + CueDuration(g[|g| - 1])
  }

  /** The first line followed by `" " + line` for each later line, in order. */
  function Speech(g: seq<Cue>): string
    requires |g| > 0
  {
    if |g| == 1 then g[0].text else Speech(g[..|g| - 1]) + " " + g[|g| - 1].text
  }

  /** The speaker map after every marker line of `lines` has been through the resolver. */
  function MapAfter(noInfer: bool, known: seq<string>, lines: seq<Cue>): SpeakerMap
    requires noInfer || |known| > 0
  {
    if |lines| == 0 then Seed(known)
    else
      var m := MapAfter(noInfer, known, lines[..|lines| - 1]);
      var x := lines[|lines| - 1].text;
      if IsMarker(x) then MarkerSpeaker(noInfer, known, m, x).1 else m
  }

  /** The speaker of the marker line at `p`, resolved against the map built by the markers before it. */
  function SpeakerAt(noInfer: bool, known: seq<string>, lines: seq<Cue>, p: int): string
    requires noInfer || |known| > 0
    requires 0 <= p < |lines| && IsMarker(lines[p].text)
  {
    MarkerSpeaker(noInfer, known, MapAfter(noInfer, known, lines[..p]), lines[p].text).0
  }

  /** The block made of the accepted lines `a` (a marker) up to `b`, exclusive. */
  function GroupBlock(noInfer: bool, known: seq<string>, lines: seq<Cue>, a: int, b: int): Block
    requires noInfer || |known| > 0
    requires 0 <= a < b <= |lines| && IsMarker(lines[a].text)
  {
    Block(lines[a].start, lines[b - 1].end, SumDurations(lines[a..b]),
          SpeakerAt(noInfer, known, lines, a), Speech(lines[a..b]))
  }

  /** Marker positions `j` and `j + 1` both exist and delimit a non-empty group of `lines` opened by a marker. */
  predicate IsGroup(lines: seq<Cue>, P: seq<int>, j: int)
  {
    0 <= j && j + 1 < |P| && 0 <= P[j] < P[j + 1] <= |lines| && IsMarker(lines[P[j]].text)
  }

  /** How the loop state after some cues relates to the lines accepted from them. */
  ghost predicate Agrees(noInfer: bool, known: seq<string>, st: SegState, lines: seq<Cue>)
    requires noInfer || |known| > 0
  {
    var P := MarkerPositions(lines);
    st.speakerMap == MapAfter(noInfer, known, lines)
    && (st.startTime.Some? <==> |P| > 0)
    && |st.blocks| == (if |P| == 0 then 0 else |P| - 1)
    && BlocksAre(noInfer, known, st.blocks, lines, P)
    && (|P| > 0 ==> OpenBlockIs(noInfer, known, st, lines, P[|P| - 1]))
    && (|P| == 0 ==> st.duration == SumDurations(lines))
  }

  /** Block `j` is the group of lines from marker position `j` to marker position `j + 1`. */
  ghost predicate BlocksAre(noInfer: bool, known: seq<string>, blocks: seq<Block>, lines: seq<Cue>, P: seq<int>)
    requires noInfer || |known| > 0
  {
    forall j :: 0 <= j < |blocks| ==> IsGroupBlock(noInfer, known, blocks[j], lines, P, j)
  }

  /** `b` is the block made of the group between marker positions `j` and `j + 1`. */
  ghost predicate IsGroupBlock(noInfer: bool, known: seq<string>, b: Block, lines: seq<Cue>, P: seq<int>, j: int)
    requires noInfer || |known| > 0
  {
    IsGroup(lines, P, j) && b == GroupBlock(noInfer, known, lines, P[j], P[j + 1])
  }

  /** The open block holds the lines from the marker at `p` to the end. */
  ghost predicate OpenBlockIs(noInfer: bool, known: seq<string>, st: SegState, lines: seq<Cue>, p: int)
    requires noInfer || |known| > 0
    requires 0 <= p < |lines| && IsMarker(lines[p].text)
  {
    st.startTime == Some(lines[p].start)
    && st.endTime == Some(lines[|lines| - 1].end)
    && st.duration == SumDurations(lines[p..])
    && st.speech == Speech(lines[p..])
    && st.speaker == SpeakerAt(noInfer, known, lines, p)
  }

  // ---------------------------------------------------------------------
  // The duplicate filter

  /** `last_line` is always the normalised text of the last cue read. */
  lemma {:induction false} LastLineIsPrevious(noInfer: bool, known: seq<string>, cues: seq<Cue>)
    requires noInfer || |known| > 0
    ensures Run(noInfer, known, cues).lastLine == PrevLine(cues)
  {
    if |cues| > 0 {
      LastLineIsPrevious(noInfer, known, cues[..|cues| - 1]);
    }
  }

  /**
   * A cue whose normalised text equals that of the cue before it (or is
   * empty, for the first cue) changes nothing: no speech, no end time, no
   * duration, no speaker lookup, and it is not an accepted line.
   */
  lemma DuplicateCueIgnored(noInfer: bool, known: seq<string>, cues: seq<Cue>, c: Cue)
    requires noInfer || |known| > 0
    requires Normalize(c.text) == PrevLine(cues)
    ensures Run(noInfer, known, cues + [c]) == Run(noInfer, known, cues)
    ensures Accepted(cues + [c]) == Accepted(cues)
  {
    assert (cues + [c])[..|cues|] == cues;
    LastLineIsPrevious(noInfer, known, cues);
  }

  /** A cue whose normalised text differs from the previous cue's is accepted, as its last line. */
  lemma FreshCueAccepted(noInfer: bool, known: seq<string>, cues: seq<Cue>, c: Cue)
    requires noInfer || |known| > 0
    requires Normalize(c.text) != PrevLine(cues)
    ensures Accepted(cues + [c]) == Accepted(cues) + [c.(text := Normalize(c.text))]
    ensures Run(noInfer, known, cues + [c]).lastLine == Normalize(c.text)
  {
    assert (cues + [c])[..|cues|] == cues;
    LastLineIsPrevious(noInfer, known, cues);
  }

  // ---------------------------------------------------------------------
  // Facts about appending one accepted line

  lemma PositionsAppend(lines: seq<Cue>, x: Cue)
    ensures MarkerPositions(lines + [x]) == MarkerPositions(lines) + (if IsMarker(x.text) then [|lines|] else [])
  {
    assert (lines + [x])[..|lines|] == lines;
  }

  lemma MapAfterPrefix(noInfer: bool, known: seq<string>, lines: seq<Cue>, x: Cue, p: int)
    requires noInfer || |known| > 0
    requires 0 <= p <= |lines|
    ensures MapAfter(noInfer, known, (lines + [x])[..p]) == MapAfter(noInfer, known, lines[..p])
  {
    assert (lines + [x])[..p] == lines[..p];
  }

  lemma GroupBlockStable(noInfer: bool, known: seq<string>, lines: seq<Cue>, x: Cue, a: int, b: int)
    requires noInfer || |known| > 0
    requires 0 <= a < b <= |lines| && IsMarker(lines[a].text)
    ensures GroupBlock(noInfer, known, lines + [x], a, b) == GroupBlock(noInfer, known, lines, a, b)
  {
    assert (lines + [x])[a..b] == lines[a..b];
    MapAfterPrefix(noInfer, known, lines, x, a);
  }

  lemma SumDurationsAppend(g: seq<Cue>, x: Cue)
    ensures SumDurations(g + [x]) == SumDurations(g) + CueDuration(x)
  {
    assert (g + [x])[..|g|] == g;
  }

  lemma SpeechAppend(g: seq<Cue>, x: Cue)
    requires |g| > 0
    ensures Speech(g + [x]) == Speech(g) + " " + x.text
  {
    assert (g + [x])[..|g|] == g;
  }

  /** Appending a line, and possibly marker positions after the old ones, keeps every closed block's group. */
  lemma AllBlocksStable(noInfer: bool, known: seq<string>, blocks: seq<Block>, lines: seq<Cue>, x: Cue,
                        P: seq<int>, extra: seq<int>)
    requires noInfer || |known| > 0
    requires BlocksAre(noInfer, known, blocks, lines, P)
    ensures BlocksAre(noInfer, known, blocks, lines + [x], P + extra)
  {
    var lines', P' := lines + [x], P + extra;
    forall j | 0 <= j < |blocks|
      ensures IsGroupBlock(noInfer, known, blocks[j], lines', P', j)
    {
      assert IsGroupBlock(noInfer, known, blocks[j], lines, P, j);
      assert P'[j] == P[j] && P'[j + 1] == P[j + 1];
      assert lines'[P[j]] == lines[P[j]];
      GroupBlockStable(noInfer, known, lines, x, P[j], P[j + 1]);
    }
  }

  lemma BlocksAreAppend(noInfer: bool, known: seq<string>, blocks: seq<Block>, b: Block, lines: seq<Cue>, P: seq<int>)
    requires noInfer || |known| > 0
    requires BlocksAre(noInfer, known, blocks, lines, P)
    requires IsGroup(lines, P, |blocks|)
    requires b == GroupBlock(noInfer, known, lines, P[|blocks|], P[|blocks| + 1])
    ensures BlocksAre(noInfer, known, blocks + [b], lines, P)
  {
    forall j | 0 <= j < |blocks| + 1
      ensures IsGroupBlock(noInfer, known, (blocks + [b])[j], lines, P, j)
    {
      if j < |blocks| {
        assert (blocks + [b])[j] == blocks[j];
      }
    }
  }

  /** The block open before line `x` is the group from its marker `p` to the last line before `x`. */
  lemma ClosedBlockIsGroup(noInfer: bool, known: seq<string>, st: SegState, lines: seq<Cue>, x: Cue, p: int)
    requires noInfer || |known| > 0
    requires 0 <= p < |lines| && IsMarker(lines[p].text)
    requires OpenBlockIs(noInfer, known, st, lines, p)
    ensures GroupBlock(noInfer, known, lines + [x], p, |lines|)
         == Block(st.startTime.value, st.endTime.value, st.duration, st.speaker, st.speech)
  {
    assert (lines + [x])[p..|lines|] == lines[p..];
    MapAfterPrefix(noInfer, known, lines, x, p);
  }

  /** An accepted marker line opens a block of its own and passes through the resolver. */
  lemma OpenedBlock(noInfer: bool, known: seq<string>, st: SegState, lines: seq<Cue>, x: Cue)
    requires noInfer || |known| > 0
    requires Consistent(st) && IsMarker(x.text)
    requires st.speakerMap == MapAfter(noInfer, known, lines)
    ensures var st', lines' := StartBlock(noInfer, known, st, x), lines + [x];
      st'.speakerMap == MapAfter(noInfer, known, lines')
      && OpenBlockIs(noInfer, known, st', lines', |lines|)
  {
    var lines' := lines + [x];
    assert lines'[..|lines|] == lines;
    assert lines'[|lines|..] == [x];
    assert Speech([x]) == x.text;
    assert SumDurations([x]) == CueDuration(x);
  }

  /** An accepted marker line closes the open block (if any) and opens its own. */
  lemma AgreesAfterMarker(noInfer: bool, known: seq<string>, st: SegState, lines: seq<Cue>, x: Cue)
    requires noInfer || |known| > 0
    requires Consistent(st) && Agrees(noInfer, known, st, lines) && IsMarker(x.text)
    ensures Agrees(noInfer, known, StartBlock(noInfer, known, st, x), lines + [x])
  {
    var lines' := lines + [x];
    var P := MarkerPositions(lines);
    PositionsAppend(lines, x);
    var P' := P + [|lines|];
    AllBlocksStable(noInfer, known, st.blocks, lines, x, P, [|lines|]);
    if |P| > 0 {
      var p := P[|P| - 1];
      ClosedBlockIsGroup(noInfer, known, st, lines, x, p);
      assert IsGroup(lines', P', |st.blocks|);
      BlocksAreAppend(noInfer, known, st.blocks,
                      Block(st.startTime.value, st.endTime.value, st.duration, st.speaker, st.speech), lines', P');
    }
    OpenedBlock(noInfer, known, st, lines, x);
  }

  /** A line that is not a marker extends the open block at `p`. */
  lemma ExtendedBlock(noInfer: bool, known: seq<string>, st: SegState, lines: seq<Cue>, x: Cue, p: int)
    requires noInfer || |known| > 0
    requires 0 <= p < |lines| && IsMarker(lines[p].text)
    requires OpenBlockIs(noInfer, known, st, lines, p)
    ensures OpenBlockIs(noInfer, known, ExtendBlock(st, x), lines + [x], p)
  {
    var lines' := lines + [x];
    assert lines'[p..] == lines[p..] + [x];
    SumDurationsAppend(lines[p..], x);
    SpeechAppend(lines[p..], x);
    MapAfterPrefix(noInfer, known, lines, x, p);
  }

  /** An accepted line that is not a marker joins the open block, or is lost before the first marker. */
  lemma AgreesAfterContinuation(noInfer: bool, known: seq<string>, st: SegState, lines: seq<Cue>, x: Cue)
    requires noInfer || |known| > 0
    requires Consistent(st) && Agrees(noInfer, known, st, lines) && !IsMarker(x.text)
    ensures Agrees(noInfer, known, ExtendBlock(st, x), lines + [x])
  {
    var lines' := lines + [x];
    var P := MarkerPositions(lines);
    PositionsAppend(lines, x);
    assert P + [] == P;
    AllBlocksStable(noInfer, known, st.blocks, lines, x, P, []);
    assert lines'[..|lines|] == lines;
    if |P| > 0 {
      ExtendedBlock(noInfer, known, st, lines, x, P[|P| - 1]);
    } else {
      SumDurationsAppend(lines, x);
    }
  }

  /** The loop state after any prefix of cues agrees with the lines accepted from it. */
  lemma {:induction false} RunAgrees(noInfer: bool, known: seq<string>, cues: seq<Cue>)
    requires noInfer || |known| > 0
    ensures Agrees(noInfer, known, Run(noInfer, known, cues), Accepted(cues))
  {
    if |cues| > 0 {
      var prefix, c := cues[..|cues| - 1], cues[|cues| - 1];
      assert cues == prefix + [c];
      RunAgrees(noInfer, known, prefix);
      LastLineIsPrevious(noInfer, known, prefix);
      var st := Run(noInfer, known, prefix);
      if Normalize(c.text) == PrevLine(prefix) {
        DuplicateCueIgnored(noInfer, known, prefix, c);
      } else {
        FreshCueAccepted(noInfer, known, prefix, c);
        var x := c.(text := Normalize(c.text));
        assert Run(noInfer, known, cues) == Step(noInfer, known, st, c);
        if IsMarker(x.text) {
          AgreesAfterMarker(noInfer, known, st, Accepted(prefix), x);
        } else {
          AgreesAfterContinuation(noInfer, known, st, Accepted(prefix), x);
        }
      }
    }
  }

  // ---------------------------------------------------------------------
  // Marker positions

  /** A line whose index is not a marker position is not a marker line. */
  lemma {:induction false} PositionsComplete(lines: seq<Cue>, i: int)
    requires 0 <= i < |lines| && i !in MarkerPositions(lines)
    ensures !IsMarker(lines[i].text)
  {
    var n := |lines| - 1;
    if i < n {
      var rest := MarkerPositions(lines[..n]);
      assert MarkerPositions(lines) == rest + (if IsMarker(lines[n].text) then [n] else []);
      assert i !in rest;
      PositionsComplete(lines[..n], i);
      assert lines[..n][i] == lines[i];
    }
  }

  lemma {:induction false} PositionsIncreasing(lines: seq<Cue>)
    ensures forall a, b :: 0 <= a < b < |MarkerPositions(lines)| ==> MarkerPositions(lines)[a] < MarkerPositions(lines)[b]
  {
    if |lines| > 0 {
      var n := |lines| - 1;
      PositionsIncreasing(lines[..n]);
      var rest := MarkerPositions(lines[..n]);
      var P := MarkerPositions(lines);
      assert P == rest + (if IsMarker(lines[n].text) then [n] else []);
      forall a, b | 0 <= a < b < |P| ensures P[a] < P[b] {
        assert P[a] == rest[a];
        if b < |rest| {
          assert P[b] == rest[b];
          assert rest[a] < rest[b];
        } else {
          assert rest[a] < n;
        }
      }
    }
  }

  lemma PositionsIncreasingAt(lines: seq<Cue>, a: int, b: int)
    requires 0 <= a < b < |MarkerPositions(lines)|
    ensures MarkerPositions(lines)[a] < MarkerPositions(lines)[b]
  {
    PositionsIncreasing(lines);
  }

  /** Between two consecutive marker positions there is no other marker line. */
  lemma NoMarkerInsideGroup(lines: seq<Cue>, j: int, i: int)
    requires var P := MarkerPositions(lines); 0 <= j && j + 1 < |P| && P[j] < i < P[j + 1]
    ensures !IsMarker(lines[i].text)
  {
    var P := MarkerPositions(lines);
    forall k | 0 <= k < |P| ensures P[k] != i {
      if k < j {
        PositionsIncreasingAt(lines, k, j);
      } else if k > j + 1 {
        PositionsIncreasingAt(lines, j + 1, k);
      }
    }
    PositionsComplete(lines, i);
  }

  /** No line before the first marker position, or after the last, is a marker. */
  lemma NoMarkerOutsideGroups(lines: seq<Cue>, i: int)
    requires 0 <= i < |lines|
    requires var P := MarkerPositions(lines); |P| == 0 || i < P[0] || P[|P| - 1] < i
    ensures !IsMarker(lines[i].text)
  {
    var P := MarkerPositions(lines);
    forall k | 0 <= k < |P| ensures P[k] != i {
      if 0 < k {
        PositionsIncreasingAt(lines, 0, k);
      }
      if k < |P| - 1 {
        PositionsIncreasingAt(lines, k, |P| - 1);
      }
    }
    PositionsComplete(lines, i);
  }

  // ---------------------------------------------------------------------
  // The blocks returned

  /**
   * The returned blocks come from consecutive pairs of accepted marker
   * lines: with k marker lines there are k - 1 blocks (none for k = 0), and
   * block j is made of the accepted lines from marker j up to marker j + 1.
   * The block still open at the end, and every line before the first
   * marker, are in none of them.
   */
  lemma BlocksBetweenMarkers(noInfer: bool, known: seq<string>, cues: seq<Cue>)
    requires noInfer || |known| > 0
    ensures var lines, blocks := Accepted(cues), Run(noInfer, known, cues).blocks;
      var P := MarkerPositions(lines);
      |blocks| == (if |P| == 0 then 0 else |P| - 1)
      && forall j :: 0 <= j < |blocks| ==> IsGroupBlock(noInfer, known, blocks[j], lines, P, j)
  {
    RunAgrees(noInfer, known, cues);
  }

  lemma {:induction false} SpeechStartsWithFirst(g: seq<Cue>)
    requires |g| > 0
    ensures StartsWith(Speech(g), g[0].text)
  {
    if |g| > 1 {
      SpeechStartsWithFirst(g[..|g| - 1]);
      var s := Speech(g[..|g| - 1]);
      assert Speech(g)[..|g[0].text|] == s[..|g[0].text|];
    }
  }

  /**
   * Every block's speech begins with its opening marker line (so with
   * `>>`), its start is that line's cue start and its end the end of the
   * last line before the next marker.
   */
  lemma BlockShape(noInfer: bool, known: seq<string>, cues: seq<Cue>)
    requires noInfer || |known| > 0
    ensures var lines, blocks := Accepted(cues), Run(noInfer, known, cues).blocks;
      forall j :: 0 <= j < |blocks| ==> HasGroupShape(blocks[j], lines, MarkerPositions(lines), j)
  {
    var lines, blocks := Accepted(cues), Run(noInfer, known, cues).blocks;
    var P := MarkerPositions(lines);
    BlocksBetweenMarkers(noInfer, known, cues);
    forall j | 0 <= j < |blocks| ensures HasGroupShape(blocks[j], lines, P, j) {
      GroupBlockShape(noInfer, known, blocks[j], lines, P, j);
    }
  }

  /**
   * `b` spans the group from marker position `j` to marker position
   * `j + 1`: its speech begins with the opening marker line, its start is
   * that line's start, its end is the end of the group's last line and its
   * duration the group's summed cue durations.
   */
  predicate HasGroupShape(b: Block, lines: seq<Cue>, P: seq<int>, j: int)
  {
    IsGroup(lines, P, j)
    && StartsWith(b.speech, MarkerPrefix) && StartsWith(b.speech, lines[P[j]].text)
    && b.start == lines[P[j]].start && b.end == lines[P[j + 1] - 1].end
    && b.duration == SumDurations(lines[P[j]..P[j + 1]])
  }

  lemma GroupBlockShape(noInfer: bool, known: seq<string>, b: Block, lines: seq<Cue>, P: seq<int>, j: int)
    requires noInfer || |known| > 0
    requires IsGroupBlock(noInfer, known, b, lines, P, j)
    ensures HasGroupShape(b, lines, P, j)
  {
    var g := lines[P[j]..P[j + 1]];
    SpeechStartsWithFirst(g);
    assert Speech(g)[..|MarkerPrefix|] == lines[P[j]].text[..|MarkerPrefix|];
  }

  // ---------------------------------------------------------------------
  // Duration accounting

  /** Summed durations of blocks. */
  function TotalDuration(blocks: seq<Block>): int
  {
    if |blocks| == 0 then 0 else TotalDuration(blocks[..|blocks| - 1]) + blocks[|blocks| - 1].duration
  }

  lemma {:induction false} SumDurationsSplit(g: seq<Cue>, i: int)
    requires 0 <= i <= |g|
    ensures SumDurations(g) == SumDurations(g[..i]) + SumDurations(g[i..])
  {
    if i < |g| {
      var n := |g| - 1;
      SumDurationsSplit(g[..n], i);
      assert g[..n][..i] == g[..i];
      assert g[i..][..|g[i..]| - 1] == g[..n][i..];
    } else {
      assert g[..i] == g;
    }
  }

  /** `b`'s duration is the summed durations of the lines from marker position `j` to marker position `j + 1`. */
  predicate Covers(b: Block, lines: seq<Cue>, P: seq<int>, j: int)
  {
    0 <= j && j + 1 < |P| && 0 <= P[j] <= P[j + 1] <= |lines|
    && b.duration == SumDurations(lines[P[j]..P[j + 1]])
  }

  lemma {:induction false} BlocksCoverRange(blocks: seq<Block>, lines: seq<Cue>, P: seq<int>, k: int)
    requires |blocks| < |P|
    requires forall j :: 0 <= j < |blocks| ==> Covers(blocks[j], lines, P, j)
    requires 0 <= P[0] <= |lines|
    requires 0 <= k <= |blocks|
    ensures P[0] <= P[k] <= |lines|
    ensures TotalDuration(blocks[..k]) == SumDurations(lines[P[0]..P[k]])
  {
    if k == 0 {
      assert lines[P[0]..P[0]] == [];
    } else {
      BlocksCoverRange(blocks, lines, P, k - 1);
      assert Covers(blocks[k - 1], lines, P, k - 1);
      var a, b, c := P[0], P[k - 1], P[k];
      assert 0 <= b <= c <= |lines|;
      var prev := blocks[..k - 1];
      assert blocks[..k][..k - 1] == prev;
      assert TotalDuration(blocks[..k]) == TotalDuration(prev) + blocks[k - 1].duration;
      var g := lines[a..c];
      SumDurationsSplit(g, b - a);
      assert g[..b - a] == lines[a..b];
      assert g[b - a..] == lines[b..c];
    }
  }

  /**
   * Duration is conserved: the accepted lines' durations are those lost
   * before the first marker, plus those of the returned blocks, plus those
   * of the block left open at the end, which is not returned. With no
   * marker at all, nothing is returned and the running total holds it all.
   * Each block's own duration is a sum of cue durations (BlockShape), not
   * its end minus its start.
   */
  lemma DurationConservation(noInfer: bool, known: seq<string>, cues: seq<Cue>)
    requires noInfer || |known| > 0
    ensures var lines, st := Accepted(cues), Run(noInfer, known, cues);
      var P := MarkerPositions(lines);
      if |P| == 0 then
        st.blocks == [] && st.duration == SumDurations(lines)
      else
        SumDurations(lines[..P[0]]) + TotalDuration(st.blocks) + st.duration == SumDurations(lines)
  {
    RunAgrees(noInfer, known, cues);
    AgreementConservesDuration(noInfer, known, Run(noInfer, known, cues), Accepted(cues));
  }

  lemma AgreementConservesDuration(noInfer: bool, known: seq<string>, st: SegState, lines: seq<Cue>)
    requires noInfer || |known| > 0
    requires Agrees(noInfer, known, st, lines)
    ensures var P := MarkerPositions(lines);
      if |P| == 0 then
        st.blocks == [] && st.duration == SumDurations(lines)
      else
        SumDurations(lines[..P[0]]) + TotalDuration(st.blocks) + st.duration == SumDurations(lines)
  {
    var P := MarkerPositions(lines);
    if |P| > 0 {
      var k := |st.blocks|;
      GroupBlocksCover(noInfer, known, st.blocks, lines, P);
      BlocksCoverRange(st.blocks, lines, P, k);
      assert st.blocks[..k] == st.blocks;
      SumDurationsSplit3(lines, P[0], P[k]);
    }
  }

  lemma GroupBlocksCover(noInfer: bool, known: seq<string>, blocks: seq<Block>, lines: seq<Cue>, P: seq<int>)
    requires noInfer || |known| > 0
    requires BlocksAre(noInfer, known, blocks, lines, P)
    ensures forall j :: 0 <= j < |blocks| ==> Covers(blocks[j], lines, P, j)
  {
    forall j | 0 <= j < |blocks|
      ensures Covers(blocks[j], lines, P, j)
    {
      assert IsGroupBlock(noInfer, known, blocks[j], lines, P, j);
    }
  }

  /** Summed durations split at two points. */
  lemma SumDurationsSplit3(lines: seq<Cue>, a: int, b: int)
    requires 0 <= a <= b <= |lines|
    ensures SumDurations(lines) == SumDurations(lines[..a]) + SumDurations(lines[a..b]) + SumDurations(lines[b..])
  {
    SumDurationsSplit(lines, a);
    var rest := lines[a..];
    SumDurationsSplit(rest, b - a);
    assert rest[..b - a] == lines[a..b];
    assert rest[b - a..] == lines[b..];
  }

  // ---------------------------------------------------------------------
  // Speakers and the speaker map

  lemma {:induction false} MapAfterWellFormed(noInfer: bool, known: seq<string>, lines: seq<Cue>)
    requires noInfer || |known| > 0
    ensures WellFormed(MapAfter(noInfer, known, lines), known)
    ensures Extends(Seed(known), MapAfter(noInfer, known, lines))
    ensures noInfer ==> MapAfter(noInfer, known, lines) == Seed(known)
  {
    SeedWellFormed(known);
    if |lines| > 0 {
      var m := MapAfter(noInfer, known, lines[..|lines| - 1]);
      MapAfterWellFormed(noInfer, known, lines[..|lines| - 1]);
      var x := lines[|lines| - 1].text;
      if IsMarker(x) && ':' in x {
        ResolvePreservesWellFormed(noInfer, known, m, SpeakerLabel(x));
        ExtendsTransitive(Seed(known), m, Resolve(noInfer, known, m, SpeakerLabel(x)).1);
      }
    }
  }

  /** With inference on, a marker line's speaker is a known speaker or `UNKNOWN`. */
  lemma SpeakerAtIsKnown(known: seq<string>, lines: seq<Cue>, p: int)
    requires |known| > 0
    requires 0 <= p < |lines| && IsMarker(lines[p].text)
    ensures var name := SpeakerAt(false, known, lines, p); name in known || name == UnknownSpeaker
  {
    var line := lines[p].text;
    var m := MapAfter(false, known, lines[..p]);
    MapAfterWellFormed(false, known, lines[..p]);
    if ':' in line {
      ResolveIsKnown(known, m, SpeakerLabel(line));
    }
  }

  /**
   * The speaker map a run returns is well formed and extends the seed map;
   * with inference off it is exactly the seed. With inference on, every
   * block's speaker is a known speaker or `UNKNOWN`.
   */
  lemma RunSpeakers(noInfer: bool, known: seq<string>, cues: seq<Cue>)
    requires noInfer || |known| > 0
    ensures var st := Run(noInfer, known, cues);
      WellFormed(st.speakerMap, known) && Extends(Seed(known), st.speakerMap)
      && (noInfer ==> st.speakerMap == Seed(known))
      && (!noInfer ==> forall j :: 0 <= j < |st.blocks| ==>
            st.blocks[j].speaker in known || st.blocks[j].speaker == UnknownSpeaker)
  {
    var lines, st := Accepted(cues), Run(noInfer, known, cues);
    var P := MarkerPositions(lines);
    RunAgrees(noInfer, known, cues);
    MapAfterWellFormed(noInfer, known, lines);
    if !noInfer {
      forall j | 0 <= j < |st.blocks|
        ensures st.blocks[j].speaker in known || st.blocks[j].speaker == UnknownSpeaker
      {
        assert IsGroupBlock(noInfer, known, st.blocks[j], lines, P, j);
        SpeakerAtIsKnown(known, lines, P[j]);
      }
    }
  }

  /**
   * The speaker of the marker line at `p`, and the map after it: with a
   * colon, the label (`SpeakerLabel`: the text between `>>` and the first
   * colon, trimmed and lower-cased) resolved against the map the earlier
   * markers left; without one, `UNKNOWN`, and the map is left as it was.
   */
  lemma MarkerSpeakerRule(noInfer: bool, known: seq<string>, lines: seq<Cue>, p: int)
    requires noInfer || |known| > 0
    requires 0 <= p < |lines| && IsMarker(lines[p].text)
    ensures var line, before := lines[p].text, MapAfter(noInfer, known, lines[..p]);
      var name, after := SpeakerAt(noInfer, known, lines, p), MapAfter(noInfer, known, lines[..p + 1]);
      (':' in line ==> (name, after) == Resolve(noInfer, known, before, SpeakerLabel(line)))
      && (':' !in line ==> name == UnknownSpeaker && after == before)
  {
    assert lines[..p + 1][..p] == lines[..p];
  }

  /** The speaker map only grows: no entry made while reading a prefix is ever changed. */
  lemma {:induction false} SpeakerMapGrows(noInfer: bool, known: seq<string>, cues: seq<Cue>, k: int)
    requires noInfer || |known| > 0
    requires 0 <= k <= |cues|
    ensures Extends(Run(noInfer, known, cues[..k]).speakerMap, Run(noInfer, known, cues).speakerMap)
  {
    if k == |cues| {
      assert cues[..k] == cues;
    } else {
      var n := |cues| - 1;
      SpeakerMapGrows(noInfer, known, cues[..n], k);
      assert cues[..n][..k] == cues[..k];
      var st := Run(noInfer, known, cues[..n]);
      var line := Normalize(cues[n].text);
      if line != st.lastLine && IsMarker(line) && ':' in line {
        ExtendsTransitive(Run(noInfer, known, cues[..k]).speakerMap, st.speakerMap,
                          Run(noInfer, known, cues).speakerMap);
      }
    }
  }
}
