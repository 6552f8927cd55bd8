/**
 * The header repair done before the captions are parsed (`preprocess`):
 * read the file line by line until a line starts with a timestamp, then
 * return `"WEBVTT\r\n"` followed by the file from the start of that line.
 *
 * The file is the sequence of strings `readline` returns, in order; their
 * concatenation is the file's text, and `tell()` after a line is the
 * length of the text read so far. `readline` returns `""` only at the end
 * of the file; an empty string anywhere in `lines` is read as the end of
 * the file, as `if not line` does.
 */
module Preprocess {
  import opened Wrappers
  import opened Text
  import opened Timestamp

  /** The header put in front of the caption content. */
  const Header: string := "WEBVTT\r\n"

  /** The message of the exception raised when the scan reaches the end of the file. */
  const NoTimestampsError: string := "No timestamp-like lines found!"

  /** The text of `lines`, one after the other. */
  function Concat(lines: seq<string>): string
  {
    if |lines| == 0 then "" else Concat(lines[..|lines| - 1]) + lines[|lines| - 1]
  }

  /**
   * The scan stops at line `k` with a timestamp: line `k` starts with one,
   * and every line before it is neither the end of the file nor starts with
   * one.
   */
  predicate ScanStopsAt(lines: seq<string>, k: int)
  {
    0 <= k < |lines| && IsTimestampPrefix(lines[k])
    && forall j :: 0 <= j < k ==> lines[j] != "" && !IsTimestampPrefix(lines[j])
  }

  /**
   * `preprocess(webvtt_fp)`. It fails exactly when the scan stops at no
   * line; otherwise its result is the header followed by the text from the
   * line where the scan stops, which begins with a timestamp.
   */
  method Preprocess(lines: seq<string>) returns (r: Result<string, string>)
    ensures r.Failure? <==> forall k :: 0 <= k < |lines| ==> !ScanStopsAt(lines, k)
    ensures r.Failure? ==> r.error == NoTimestampsError
    ensures forall k :: ScanStopsAt(lines, k) ==> r == Success(Header + Concat(lines[k..]))
    ensures r.Success? ==> StartsWith(r.value, Header) && IsTimestampPrefix(r.value[|Header|..])
  {
    var content := Concat(lines);
    var filePos := 0;
    var i := 0;
    while true
      invariant 0 <= i <= |lines|
      invariant filePos == |Concat(lines[..i])|
      invariant forall j :: 0 <= j < i ==> lines[j] != "" && !IsTimestampPrefix(lines[j])
      decreases |lines| - i
    {
      var line := if i < |lines| then lines[i] else "";
      if line == "" {
        // End of file: the scan stops at no line.
        forall k | 0 <= k < |lines| ensures !ScanStopsAt(lines, k) {
          if k >= i {
            assert !IsTimestampPrefix(lines[i]);
          }
        }
        return Failure(NoTimestampsError);
      }
      if IsTimestampPrefix(line) {
        break;
      }
      ConcatAppend(lines, i);
      filePos := filePos + |line|;
      i := i + 1;
    }
    assert ScanStopsAt(lines, i);
    ConcatSplit(lines, i);
    var rest := content[filePos..];
    assert rest == Concat(lines[i..]);
    forall k | ScanStopsAt(lines, k) ensures k == i {
      ScanStopsOnce(lines, k, i);
    }
    ConcatStartsWithFirst(lines[i..]);
    TimestampPrefixExtends(lines[i], rest[|lines[i]|..]);
    assert rest == lines[i] + rest[|lines[i]|..];
    r := Success(Header + rest);
    assert r.value[|Header|..] == rest;
  }

  lemma ConcatAppend(lines: seq<string>, i: int)
    requires 0 <= i < |lines|
    ensures Concat(lines[..i + 1]) == Concat(lines[..i]) + lines[i]
  {
    assert lines[..i + 1][..i] == lines[..i];
  }

  /** The text of `lines` is the text of its first `k` lines followed by the text of the rest. */
  lemma {:induction false} ConcatSplit(lines: seq<string>, k: int)
    requires 0 <= k <= |lines|
    ensures Concat(lines) == Concat(lines[..k]) + Concat(lines[k..])
  {
    if k == |lines| {
      assert lines[..k] == lines;
      assert lines[k..] == [];
    } else {
      var n := |lines| - 1;
      ConcatSplit(lines[..n], k);
      assert lines[..n][..k] == lines[..k];
      assert lines[k..][..|lines[k..]| - 1] == lines[..n][k..];
    }
  }

  lemma {:induction false} ConcatStartsWithFirst(lines: seq<string>)
    requires |lines| > 0
    ensures StartsWith(Concat(lines), lines[0])
  {
    if |lines| > 1 {
      var n := |lines| - 1;
      ConcatStartsWithFirst(lines[..n]);
      assert Concat(lines)[..|lines[0]|] == Concat(lines[..n])[..|lines[0]|];
    } else {
      assert lines[..0] == [];
    }
  }

  /** Whether a line starts with a timestamp depends on its first twelve characters only. */
  lemma TimestampPrefixExtends(s: string, t: string)
    requires IsTimestampPrefix(s)
    ensures IsTimestampPrefix(s + t)
  {
  }

  /** The scan stops at most once. */
  lemma ScanStopsOnce(lines: seq<string>, k: int, k': int)
    requires ScanStopsAt(lines, k) && ScanStopsAt(lines, k')
    ensures k == k'
  {
  }

  /**
   * For a file as `readline` reads it, where no line is empty, the scan
   * stops somewhere exactly when some line starts with a timestamp, and it
   * stops at the first such line: a failure means no line of the file
   * starts with a timestamp.
   */
  lemma ScanFindsFirstTimestamp(lines: seq<string>, i: int)
    requires forall j :: 0 <= j < |lines| ==> lines[j] != ""
    requires 0 <= i < |lines| && IsTimestampPrefix(lines[i])
    ensures exists k :: 0 <= k <= i && ScanStopsAt(lines, k)
    decreases i
  {
    if exists j :: 0 <= j < i && IsTimestampPrefix(lines[j]) {
      var j :| 0 <= j < i && IsTimestampPrefix(lines[j]);
      ScanFindsFirstTimestamp(lines, j);
    } else {
      assert ScanStopsAt(lines, i);
    }
  }
}
