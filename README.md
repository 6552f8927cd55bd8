# Caption-to-speech-block engine, modelled in Dafny

This project models the core of `parse_captions.py`, which rebuilds
speaker-attributed speech from a city-council video's WebVTT captions. The
model covers:

- `calc_duration`: the difference of two `HH:MM:SS.mmm` times of day.
- `get_closest_match`: the known speaker nearest to a label by Levenshtein
  distance.
- `get_speech_blocks`: one pass over the parsed cues. It strips each cue's
  text of `\r`, `\n`, space and NUL. It drops a line equal to the previous
  one. A line starting with `>>` closes the open block and opens a new one.
  Every other line is appended to the open block. The memoised resolver
  `infer_speaker` turns the label after `>>` into a known speaker name.
- `preprocess`: the header repair. It skips the file up to the first line
  that starts with a timestamp and puts `WEBVTT\r\n` in front.
- The projections `main` prints: the newline-joined transcript, the
  inferred corrections (`k != v`), and the total duration per speaker.

Modules:

| module | file | what it holds |
|---|---|---|
| `Wrappers` | `wrappers.dfy` | `Option` and `Result` |
| `Text` | `text.dfy` | Python's `strip`, `startswith`, `split(":")[0]`, `lower`, string `<`, `"\n".join` and `split("\n")` |
| `Timestamp` | `timestamp.dfy` | parsing and formatting `HH:MM:SS.mmm`, and `calc_duration` |
| `Levenshtein` | `levenshtein.dfy` | edit distance and `get_closest_match` |
| `Speakers` | `speakers.dfy` | the speaker map, the pure `Resolve` and the resolver class `SpeakerResolver` |
| `Segmenter` | `segmenter.dfy` | cues, blocks, the loop's state, the fold `Run` and the method `GetSpeechBlocks` |
| `SegmenterProperties` | `segmenter_properties.dfy` | what the segmentation means, stated without the loop's variables |
| `Preprocess` | `preprocess.dfy` | the header-repair scan, as a `while` loop |
| `Projections` | `projections.dfy` | transcript, corrections and speaker times |

`get_speech_blocks` updates six loop variables, a list and a dictionary. It
is modelled as the method `Segmenter.GetSpeechBlocks`, whose `for` loop keeps
the invariant that its variables equal `Run` of the cues read so far. `Run`
is a left fold of one loop iteration, `Step`, over the cues. The resolver
is a class whose method `Infer` updates its `speakerMap` field; its
specification is the pure function `Speakers.Resolve`.

The meaning of `Run` is proved in `SegmenterProperties` against declarative
definitions:

- `Accepted`: the cues the duplicate filter keeps.
- `MarkerPositions`: the positions of the accepted marker lines.
- `GroupBlock`: the block made of the lines from one marker up to the next.
- `MapAfter`: the map after the resolver has seen the markers so far.

Cue times are whole milliseconds since midnight. A cue's own contribution
`CueDuration` is `end - start`. `Timestamp.CalcDurationOfTimes` shows that
this is what `calc_duration` computes on the timestamp strings of those
times.

Three behaviours of the code that a reader might expect otherwise:

- **Ties.** Ties between equally distant speakers are not broken by list
  order. `min` over `(distance, candidate)` pairs picks the
  lexicographically smallest candidate. `"UNKNOWN"`, being upper case,
  beats every lower-case name (`Levenshtein.UnknownWinsTies`).
- **The last block.** A single marker followed by a continuation
  (`>> smith: hello`, then `there`) yields no block. The loop never records
  the block still open when the cues run out
  (`SegmenterProperties.BlocksBetweenMarkers`: one marker, zero blocks).
- **Signs.** Durations are not checked for sign. A cue or a time pair whose
  end comes before its start contributes a negative amount
  (`Timestamp.CalcDurationOfTimes`).

Quirks kept as the code has them, with a comment at each place in the model:

- The open block is never returned.
- Lines before the first marker belong to no block. Their speech and
  duration are overwritten by the first marker.
- `last_line` starts as `""`, so a leading empty line counts as a duplicate.

## Model

| member | source | states |
|---|---|---|
| Timestamp.ParseTimestamp | parse_captions.py:21-24 | a parsed time lies in one day and is read from a string of exactly the `HH:MM:SS.mmm` form |
| Timestamp.ParseFormat | parse_captions.py:21-24 | formatting a time of day and parsing it back gives the time |
| Timestamp.FormatParse | parse_captions.py:21-24 | a timestamp that parses is the formatting of its value, so parsing and formatting are inverse |
| Timestamp.CalcDuration | parse_captions.py:19-26 | defined exactly when both timestamps parse; the start time plus the result is the end time; the result lies strictly within one day either way |
| Timestamp.CalcDurationOfTimes | parse_captions.py:19-26 | on two formatted times the duration is their difference, negative when the end comes first |
| Timestamp.TimestampLineDetected | parse_captions.py:129 | every formatted time, followed by anything, matches the header-repair pattern |
| Levenshtein.Distance | parse_captions.py:33 | the edit distance, given meaning by `DistanceToSelf`, `DistanceZero`, `DistanceAtMostLonger` and `DistanceAtLeastLengthGap` |
| Levenshtein.DistanceToSelf | parse_captions.py:33 | the distance of a string to itself is zero |
| Levenshtein.DistanceZero | parse_captions.py:33 | distance zero only between equal strings |
| Levenshtein.DistanceAtMostLonger | parse_captions.py:33 | the distance is at most the longer length |
| Levenshtein.DistanceAtLeastLengthGap | parse_captions.py:33 | the distance is at least the difference of the lengths |
| Levenshtein.PrecedesTransitive | parse_captions.py:32-35 | the `(distance, candidate)` order is transitive |
| Levenshtein.PrecedesTotal | parse_captions.py:32-35 | any two candidates are comparable |
| Levenshtein.PrecedesAntisymmetric | parse_captions.py:32-35 | two candidates that precede each other are equal |
| Levenshtein.ClosestMatch | parse_captions.py:29-36 | the result is one of the candidates and precedes every candidate: minimal distance, and smallest string among equal distances |
| Levenshtein.ClosestMatchUnique | parse_captions.py:29-36 | any candidate with that property is the result, so the minimum is unique |
| Levenshtein.ClosestMatchOfCandidate | parse_captions.py:29-36 | a query that is a candidate is its own closest match |
| Levenshtein.UnknownWinsTies | parse_captions.py:16 | on equal distance `"UNKNOWN"` precedes any name starting with a lower-case letter, and not the other way round |
| Text.LexIrreflexive | parse_captions.py:32-35 | no string is smaller than itself |
| Text.LexTransitive | parse_captions.py:32-35 | string order is transitive |
| Text.LexTotal | parse_captions.py:32-35 | two different strings are ordered one way or the other |
| Text.LexAsymmetric | parse_captions.py:32-35 | string order is asymmetric |
| Text.TrimStartSpec | parse_captions.py:65 | the trimmed string is a suffix, every removed character is in the set, and the first remaining one is not |
| Text.TrimEndSpec | parse_captions.py:65 | the trimmed string is a prefix, every removed character is in the set, and the last remaining one is not |
| Text.StripIsMaximalSlice | parse_captions.py:65 | the stripped text is the slice between the longest strippable prefix and suffix; its ends are not strippable |
| Text.StripIdempotent | parse_captions.py:65 | stripping twice is stripping once |
| Text.BeforeFirst | parse_captions.py:102 | `split(":")[0]` is a prefix without the separator, followed by the separator unless it is all of the text |
| Text.ToLower | parse_captions.py:102 | same length; no upper-case letter remains; other characters kept; upper-case letters shifted to lower case |
| Text.JoinSplit | parse_captions.py:201 | splitting at line breaks and joining the pieces with line breaks gives the text back |
| Text.SplitJoin | parse_captions.py:201 | pieces without line breaks are recovered by splitting their join |
| Speakers.Distinct | parse_captions.py:44 | the keys of `{s: s for s in known}`: exactly the known speakers, each once |
| Speakers.SeedWellFormed | parse_captions.py:44 | the seed map is well formed, and every known speaker maps to itself |
| Speakers.Resolve | parse_captions.py:47-55 | with inference off the label is returned and the map untouched; with it on, the label is a key and the name is its entry; the keys grow by at most the label; no entry changes; an uncached label gets the closest match among the known speakers (minimal distance, smallest string on ties) |
| Speakers.ResolvePreservesWellFormed | parse_captions.py:44-55 | every map the resolver reaches is well formed: values are known speakers, known speakers map to themselves, the order lists each key once |
| Speakers.ResolveIsKnown | parse_captions.py:47-55 | with inference on, the name is always a known speaker |
| Speakers.ResolveKnownSpeaker | parse_captions.py:44-55 | a known speaker resolves to itself and leaves the map unchanged |
| Speakers.ResolveIdempotent | parse_captions.py:50-55 | a second call with the same label gives the same name and changes nothing |
| Speakers.ExtendsTransitive | parse_captions.py:50-53 | map growth composes |
| Speakers.SpeakerResolver.constructor | parse_captions.py:44 | the resolver starts with the seed map |
| Speakers.SpeakerResolver.Infer | parse_captions.py:47-55 | the returned name and the new map are those of `Resolve` on the old map, and the map stays well formed |
| Segmenter.Normalize | parse_captions.py:65 | the line is the slice of the cue text left once the carriage returns, newlines, spaces and NULs at both ends are removed; it neither starts nor ends with one |
| Segmenter.MarkerSpeaker | parse_captions.py:99-104 | the speaker a marker opens a block for, given meaning by `SegmenterProperties.MarkerSpeakerRule` |
| Segmenter.SpeakerLabel | parse_captions.py:102 | the label has no colon, no upper-case letter, and no whitespace at either end |
| Segmenter.StartBlock | parse_captions.py:84-104 | a marker records the open block, if any, and opens a new one holding only the marker's own duration (line 120); `end_time` stays set whenever `start_time` is; its meaning is `SegmenterProperties.RunAgrees` |
| Segmenter.ExtendBlock | parse_captions.py:105-120 | another line extends the speech, end time and duration; its meaning is `SegmenterProperties.RunAgrees` |
| Segmenter.Step | parse_captions.py:63-120 | one loop iteration keeps `end_time` set whenever `start_time` is; `SegmenterProperties.RunAgrees` states what the iterations build |
| Segmenter.Run | parse_captions.py:57-121 | after any cues, `end_time` is set whenever `start_time` is |
| Segmenter.GetSpeechBlocks | parse_captions.py:39-121 | returns the blocks and the speaker map of `Run` on all the cues |
| SegmenterProperties.LastLineIsPrevious | parse_captions.py:57-79 | `last_line` is the normalised text of the last cue read, or `""` before any |
| SegmenterProperties.DuplicateCueIgnored | parse_captions.py:65-78 | a cue whose normalised text equals the previous one leaves the whole state unchanged (no speech, end time, duration or lookup) and is not accepted |
| SegmenterProperties.FreshCueAccepted | parse_captions.py:65-79 | any other cue is accepted, with its normalised text |
| SegmenterProperties.RunAgrees | parse_captions.py:57-121 | after any cues, the loop's state agrees with the accepted lines: the map, the closed blocks, the open block and the running duration |
| SegmenterProperties.PositionsComplete | parse_captions.py:84 | a line that is not at a marker position is not a marker |
| SegmenterProperties.PositionsIncreasing | parse_captions.py:84 | marker positions are strictly increasing |
| SegmenterProperties.NoMarkerInsideGroup | parse_captions.py:84-109 | no marker line lies between two consecutive markers |
| SegmenterProperties.NoMarkerOutsideGroups | parse_captions.py:84-109 | no marker line lies before the first marker or after the last |
| SegmenterProperties.BlocksBetweenMarkers | parse_captions.py:84-121 | with k accepted markers there are k - 1 blocks (none for k = 0), and block j is the group from marker j up to marker j + 1; the open block and the lines before the first marker are in none of them |
| SegmenterProperties.BlockShape | parse_captions.py:84-109 | every block's speech begins with `>>` and with its marker line; its start is that cue's start, its end the end of its last cue, and its duration the sum of its cues' durations |
| SegmenterProperties.SpeechStartsWithFirst | parse_captions.py:90-108 | a group's speech begins with its first line |
| SegmenterProperties.SumDurationsSplit | parse_captions.py:120 | summed durations split at any point |
| SegmenterProperties.BlocksCoverRange | parse_captions.py:93-120 | blocks over consecutive groups sum to the durations of the lines they cover |
| SegmenterProperties.DurationConservation | parse_captions.py:93-121 | the accepted lines' durations are those lost before the first marker, plus the returned blocks', plus the open block's; with no marker nothing is returned |
| SegmenterProperties.MapAfterWellFormed | parse_captions.py:44-104 | the map after any markers is well formed and extends the seed; with inference off it is the seed |
| SegmenterProperties.SpeakerAtIsKnown | parse_captions.py:99-104 | with inference on, a marker's speaker is a known speaker or `UNKNOWN` |
| SegmenterProperties.MarkerSpeakerRule | parse_captions.py:99-104 | with a colon the speaker and the new map come from resolving the label; without one the speaker is `UNKNOWN` and the map is unchanged |
| SegmenterProperties.RunSpeakers | parse_captions.py:44-121 | the returned map is well formed and extends the seed (the seed itself with inference off); with inference on every block's speaker is known or `UNKNOWN` |
| SegmenterProperties.SpeakerMapGrows | parse_captions.py:50-53 | the map only grows: an entry made while reading a prefix is never changed |
| Preprocess.Preprocess | parse_captions.py:124-146 | fails, with the source's message, exactly when the scan stops at no line; otherwise returns the header followed by the text from the line where the scan stops, which begins with a timestamp |
| Preprocess.ScanFindsFirstTimestamp | parse_captions.py:132-140 | in a file without empty lines, a line starting with a timestamp means the scan stops, at it or at an earlier one |
| Preprocess.ScanStopsOnce | parse_captions.py:132-140 | the scan stops at one line at most |
| Preprocess.ConcatSplit | parse_captions.py:141-146 | seeking to the start of line k and reading gives the text of lines k onward |
| Projections.Transcript | parse_captions.py:201 | the transcript, whose lines are the block speeches by `TranscriptLines` |
| Projections.TranscriptLines | parse_captions.py:201 | when no speech holds a line break, line j of the transcript is block j's speech |
| Projections.Corrections | parse_captions.py:203-205 | the corrections list, characterised by `CorrectionsAreChangedEntries` |
| Projections.CorrectionsAreChangedEntries | parse_captions.py:203-205 | the corrections are exactly the entries whose value differs from their key |
| Projections.NoCorrectionsWithoutInference | parse_captions.py:203-205 | with inference off there are no corrections |
| Projections.CorrectionsAreInferences | parse_captions.py:203-205 | with inference on, every correction maps an unknown label to a known speaker |
| Projections.SpeakerTimes | parse_captions.py:208-212 | one key per block speaker, holding the summed durations of that speaker's blocks |
| Projections.SpeakerTotal | parse_captions.py:208-212 | a speaker's summed block durations, tied to the dictionary by `SpeakerTimes` and to the total by `SpeakerTotalsAddUp` |
| Projections.SpeakerTotalAbsent | parse_captions.py:208-212 | a name that is no block's speaker has total zero |
| Projections.SpeakerTotalsAddUp | parse_captions.py:208-212 | over any duplicate-free list of names holding every speaker, the per-speaker totals add up to the blocks' summed durations |

## Left out

- `enumerate_captions.py` is not part of this model. It does HTTP retrieval, downloads, directory scans and `state.json` bookkeeping.
- The `webvtt` cue parser is a foreign library. The model takes the parsed cues as its input.
- `jellyfish.levenshtein_distance` is a foreign library. `Levenshtein.Distance` is the textbook recursive definition, used as its specification.
- `total_seconds()` returns floating-point seconds. The model uses whole milliseconds; times with finer precision are not modelled.
- `datetime.time.fromisoformat` accepts many forms. Only `HH:MM:SS.mmm` with ASCII digits is modelled, which is the form the captions use.
- `Segmenter.CueDuration`: cue times are whole milliseconds and assumed to lie in `[0, MillisPerDay)`. The model puts no bound on them, so `Run` gives a value for every cue. The source raises a `ValueError` in `calc_duration` (lines 21 and 24, called at line 120) for an accepted cue whose timestamp has an hour of 24 or more; that error path of the segmenter is not modelled. `Timestamp.ParseTimestamp` models the rejection itself as `None`, and `Timestamp.CalcDurationOfTimes` links in-range times to the timestamp strings.
- `str.lower()` is modelled for ASCII letters only. Other characters are left as they are.
- The pattern's `\d` is modelled as ASCII digits only (Python also accepts other Unicode digits).
- `Speakers.Resolve`: requires a non-empty known-speaker list when inference is on. `main` always appends `UNKNOWN` to the list it reads, and that list-reading code is not part of this model.
- Argument parsing, opening files, reading the speaker-list file, and the output of `print` and `pprint` are left out. Their pure parts are the projections.
- `Preprocess.Preprocess` treats the file as the strings `readline` returns. `tell()` is modelled as the count of characters read. Text-mode newline translation and `tell()`'s opaque cookies are not modelled.
- `Projections.SpeakerTimes`: `main` also prints the totals with `pprint`. Only the dictionary is modelled, not the printed form.
