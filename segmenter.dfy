/**
 * The block segmenter (`get_speech_blocks`): one pass over the cues that
 * normalises each cue's text, drops a line equal to the previously accepted
 * one, opens a new block on every line starting with `>>` and appends every
 * other line to the open block.
 *
 * `Step` and `Run` give the loop's state after each cue as a function of the
 * cues read so far; `GetSpeechBlocks` is the loop itself and is proved to
 * compute `Run`. What the segmentation means is proved about `Run` in
 * module SegmenterProperties.
 */
module Segmenter {
  import opened Wrappers
  import opened Text
  import opened Speakers

  /** A parsed caption cue; times are milliseconds since midnight. */
  datatype Cue = Cue(start: int, end: int, text: string)

  /** A speech block: its first cue's start, its last cue's end, the summed cue durations. */
  datatype Block = Block(start: int, end: int, duration: int, speaker: string, speech: string)

  /** CTN's new-speaker marker. */
  const MarkerPrefix: string := ">>"

  /** `calc_duration(caption.start, caption.end)`; not clipped, so possibly negative. */
  function CueDuration(c: Cue): int
  {
    c.end - c.start
  }

  /** `caption.text.strip("\r\n \u0000")`. */
  function Normalize(text: string): (r: string)
    ensures var i := StripOffset(text, CaptionNoise);
      i + |r| <= |text| && r == text[i..i + |r|]
      && (forall k :: 0 <= k < i ==> text[k] in CaptionNoise)
      && (forall k :: i + |r| <= k < |text| ==> text[k] in CaptionNoise)
    ensures r == [] || (r[0] !in CaptionNoise && r[|r| - 1] !in CaptionNoise)
  {
    StripIsMaximalSlice(text, CaptionNoise);
    Strip(text, CaptionNoise)
  }

  predicate IsMarker(line: string)
  {
    StartsWith(line, MarkerPrefix)
  }

  /**
   * `line[2:].split(":")[0].strip().lower()`: the text between the marker
   * and the first colon, trimmed and in lower case.
   */
  function SpeakerLabel(line: string): (r: string)
    requires IsMarker(line)
    ensures ':' !in r
    ensures forall i :: 0 <= i < |r| ==> !IsAsciiUpper(r[i])
    ensures r == [] || (r[0] !in PyWhitespace && r[|r| - 1] !in PyWhitespace)
  {
    var name := BeforeFirst(line[2..], ':');
    var trimmed := Strip(name, PyWhitespace);
    StripIsMaximalSlice(name, PyWhitespace);
    StripKeepsAbsent(name, PyWhitespace, ':');
    LowerKeepsAbsent(trimmed, ':');
    LowerKeepsEnds(trimmed);
    ToLower(trimmed)
  }

  lemma LowerKeepsNonSpace(ch: char)
    requires ch !in PyWhitespace
    ensures LowerChar(ch) !in PyWhitespace
  {
    if IsAsciiUpper(ch) {
      assert 'a' <= LowerChar(ch) <= 'z';
    }
  }

  lemma LowerKeepsEnds(t: string)
    requires t == [] || (t[0] !in PyWhitespace && t[|t| - 1] !in PyWhitespace)
    ensures var r := ToLower(t); r == [] || (r[0] !in PyWhitespace && r[|r| - 1] !in PyWhitespace)
  {
    if t != [] {
      LowerKeepsNonSpace(t[0]);
      LowerKeepsNonSpace(t[|t| - 1]);
    }
  }

  /**
   * The speaker a marker line opens a block for, and the speaker map
   * afterwards: with a colon, the resolved label; without one, `UNKNOWN`
   * and the resolver is not consulted.
   */
  function MarkerSpeaker(noInfer: bool, known: seq<string>, sm: SpeakerMap, line: string): (string, SpeakerMap)
    requires IsMarker(line)
    requires noInfer || |known| > 0
  {
    if ':' in line then Resolve(noInfer, known, sm, SpeakerLabel(line)) else (UnknownSpeaker, sm)
  }

  /**
   * The loop variables of `get_speech_blocks`. `startTime` and `endTime` are
   * `None` until the first marker line; `blocks` is the output list and
   * `speakerMap` the resolver's cache.
   */
  datatype SegState = SegState(
    lastLine: string,
    startTime: Option<int>,
    endTime: Option<int>,
    duration: int,
    speech: string,
    speaker: string,
    blocks: seq<Block>,
    speakerMap: SpeakerMap)

  /** `end_time` is set whenever `start_time` is. */
  predicate Consistent(st: SegState)
  {
    st.startTime.Some? ==> st.endTime.Some?
  }

  /** The state before the first cue; `last_line` starts as `""`, so a leading empty line is skipped. */
  function Initial(known: seq<string>): SegState
  {
    SegState("", None, None, 0, "", UnknownSpeaker, [], Seed(known))
  }

  /**
   * An accepted marker line `x` (a cue whose text is already normalised):
   * the block open so far is recorded (before the first marker there is
   * none, and the speech and duration gathered until then are discarded)
   * and a new block opens with `x` alone.
   */
  function StartBlock(noInfer: bool, known: seq<string>, st: SegState, x: Cue): (r: SegState)
    requires noInfer || |known| > 0
    requires Consistent(st) && IsMarker(x.text)
    ensures Consistent(r)
  {
    var blocks := if st.startTime.Some? then
        st.blocks + [Block(st.startTime.value, st.endTime.value, st.duration, st.speaker, st.speech)]
      else st.blocks;
    var (speaker, sm) := MarkerSpeaker(noInfer, known, st.speakerMap, x.text);
    SegState(x.text, Some(x.start), Some(x.end), 0 + CueDuration(x), x.text, speaker, blocks, sm)
  }

  /**
   * An accepted line `x` that is not a marker extends the speech, the end
   * time and the duration, even before the first marker; those values are
   * overwritten when the first marker arrives.
   */
  function ExtendBlock(st: SegState, x: Cue): SegState
  {
    st.(lastLine := x.text, speech := st.speech + " " + x.text, endTime := Some(x.end),
        duration := st.duration + CueDuration(x))
  }

  /** One iteration of the loop, for cue `c`. */
  function Step(noInfer: bool, known: seq<string>, st: SegState, c: Cue): (r: SegState)
    requires noInfer || |known| > 0
    requires Consistent(st)
    ensures Consistent(r)
  {
    var line := Normalize(c.text);
    if line == st.lastLine then st
    else if IsMarker(line) then StartBlock(noInfer, known, st, c.(text := line))
    else ExtendBlock(st, c.(text := line))
  }

  /**
   * The state after the loop has read `cues`. The loop ends without
   * recording the block still open, so `Run(...).blocks` is what
   * `get_speech_blocks` returns.
   */
  function Run(noInfer: bool, known: seq<string>, cues: seq<Cue>): (r: SegState)
    requires noInfer || |known| > 0
    ensures Consistent(r)
  {
    if |cues| == 0 then Initial(known)
    else Step(noInfer, known, Run(noInfer, known, cues[..|cues| - 1]), cues[|cues| - 1])
  }

  /** `get_speech_blocks(captions, no_infer_speakers, known_speakers)`. */
  method GetSpeechBlocks(cues: seq<Cue>, noInfer: bool, known: seq<string>)
    returns (blocks: seq<Block>, speakerMap: SpeakerMap)
    requires noInfer || |known| > 0
    ensures blocks == Run(noInfer, known, cues).blocks
    ensures speakerMap == Run(noInfer, known, cues).speakerMap
  {
    var resolver := new SpeakerResolver(noInfer, known);
    blocks := [];
    var lastLine := "";
    var startTime: Option<int> := None;
    var endTime: Option<int> := None;
    var duration := 0;
    var currentSpeech := "";
    var speaker := UnknownSpeaker;
    for i := 0 to |cues|
      invariant resolver.Valid() && resolver.noInfer == noInfer && resolver.known == known
      invariant SegState(lastLine, startTime, endTime, duration, currentSpeech, speaker, blocks, resolver.speakerMap)
        == Run(noInfer, known, cues[..i])
    {
      assert cues[..i + 1][..i] == cues[..i];
      var caption := cues[i];
      ghost var before := Run(noInfer, known, cues[..i]);
      assert Run(noInfer, known, cues[..i + 1]) == Step(noInfer, known, before, caption);
      var line := Strip(caption.text, CaptionNoise);
      if line == lastLine {
        continue;
      }
      lastLine := line;
      if StartsWith(line, MarkerPrefix) {
        if startTime.Some? {
          blocks := blocks + [Block(startTime.value, endTime.value, duration, speaker, currentSpeech)];
        }
        currentSpeech := line;
        startTime := Some(caption.start);
        endTime := Some(caption.end);
        duration := 0;
        if ':' in line {
          speaker := resolver.Infer(SpeakerLabel(line));
        } else {
          speaker := UnknownSpeaker;
        }
      } else {
        currentSpeech := currentSpeech + " " + line;
        endTime := Some(caption.end);
      }
      duration := duration + CueDuration(caption);
    }
    assert cues[..|cues|] == cues;
    speakerMap := resolver.speakerMap;
  }
}
