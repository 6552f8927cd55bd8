/**
 * Edit distance and the nearest-known-speaker lookup (`get_closest_match`).
 * The distance is the classic Levenshtein distance: unit-cost insertion,
 * deletion and substitution of single characters.
 */
module Levenshtein {
  import opened Text

  function Min3(a: nat, b: nat, c: nat): nat
  {
    if a <= b && a <= c then a else if b <= c then b else c
  }

  /** Levenshtein distance, by its recursive definition over the first characters. */
  function Distance(a: string, b: string): nat
    decreases |a| + |b|
  {
    if |a| == 0 then |b|
    else if |b| == 0 then |a|
    else if a[0] == b[0] then Distance(a[1..], b[1..])
    else 1 + Min3(Distance(a[1..], b), Distance(a, b[1..]), Distance(a[1..], b[1..]))
  }

  lemma {:induction false} DistanceToSelf(a: string)
    ensures Distance(a, a) == 0
  {
    if |a| > 0 {
      DistanceToSelf(a[1..]);
    }
  }

  /** Distance zero means the strings are equal. */
  lemma {:induction false} DistanceZero(a: string, b: string)
    requires Distance(a, b) == 0
    ensures a == b
    decreases |a| + |b|
  {
    if |a| > 0 && |b| > 0 {
      DistanceZero(a[1..], b[1..]);
      assert a == [a[0]] + a[1..] && b == [b[0]] + b[1..];
    }
  }

  /** The distance is never more than the longer length. */
  lemma {:induction false} DistanceAtMostLonger(a: string, b: string)
    ensures Distance(a, b) <= if |a| <= |b| then |b| else |a|
    decreases |a| + |b|
  {
    if |a| > 0 && |b| > 0 {
      DistanceAtMostLonger(a[1..], b[1..]);
    }
  }

  /** The distance is never less than the difference of the lengths. */
  lemma {:induction false} DistanceAtLeastLengthGap(a: string, b: string)
    ensures Distance(a, b) >= |a| - |b| && Distance(a, b) >= |b| - |a|
    decreases |a| + |b|
  {
    if |a| > 0 && |b| > 0 {
      DistanceAtLeastLengthGap(a[1..], b[1..]);
      if a[0] != b[0] {
        DistanceAtLeastLengthGap(a[1..], b);
        DistanceAtLeastLengthGap(a, b[1..]);
      }
    }
  }

  /**
   * The order `min` uses on the pairs `(distance, candidate)`: smaller
   * distance first, equal distances by Python's string order.
   */
  predicate Precedes(query: string, a: string, b: string)
  {
    Distance(query, a) < Distance(query, b)
    || (Distance(query, a) == Distance(query, b) && (a == b || LexLess(a, b)))
  }

  lemma PrecedesTransitive(q: string, a: string, b: string, c: string)
    requires Precedes(q, a, b) && Precedes(q, b, c)
    ensures Precedes(q, a, c)
  {
    if Distance(q, a) == Distance(q, b) == Distance(q, c) && a != b && b != c {
      LexTransitive(a, b, c);
    }
  }

  lemma PrecedesTotal(q: string, a: string, b: string)
    ensures Precedes(q, a, b) || Precedes(q, b, a)
  {
    if a != b {
      LexTotal(a, b);
    }
  }

  lemma PrecedesAntisymmetric(q: string, a: string, b: string)
    requires Precedes(q, a, b) && Precedes(q, b, a)
    ensures a == b
  {
    if a != b {
      LexAsymmetric(a, b);
    }
  }

  /**
   * `get_closest_match`: `min` over `(distance, candidate)` pairs, scanning
   * the candidates in order and keeping the current best unless a later one
   * is strictly smaller. The result is a candidate at minimal distance, and
   * among those at that distance the smallest string (not the first listed).
   */
  function ClosestMatch(query: string, knowns: seq<string>): (r: string)
    requires |knowns| > 0
    ensures r in knowns
    ensures forall c :: c in knowns ==> Precedes(query, r, c)
  {
    if |knowns| == 1 then knowns[0]
    else
      var best := ClosestMatch(query, knowns[..|knowns| - 1]);
      var next := knowns[|knowns| - 1];
      assert forall c :: c in knowns ==> c in knowns[..|knowns| - 1] || c == next;
      PrecedesTotal(query, best, next);
      if Precedes(query, next, best) && next != best then
        AllAfter(query, next, best, knowns[..|knowns| - 1]);
        next
      else
        best
  }

  lemma AllAfter(q: string, a: string, b: string, ks: seq<string>)
    requires Precedes(q, a, b)
    requires forall c :: c in ks ==> Precedes(q, b, c)
    ensures forall c :: c in ks ==> Precedes(q, a, c)
  {
    forall c | c in ks ensures Precedes(q, a, c) {
      PrecedesTransitive(q, a, b, c);
    }
  }

  /** The two properties of `ClosestMatch` single out one candidate. */
  lemma ClosestMatchUnique(query: string, knowns: seq<string>, r: string)
    requires |knowns| > 0
    requires r in knowns && forall c :: c in knowns ==> Precedes(query, r, c)
    ensures r == ClosestMatch(query, knowns)
  {
    var m := ClosestMatch(query, knowns);
    PrecedesAntisymmetric(query, r, m);
  }

  /** A query that is itself a candidate is its own closest match. */
  lemma ClosestMatchOfCandidate(query: string, knowns: seq<string>)
    requires query in knowns
    ensures ClosestMatch(query, knowns) == query
  {
    var m := ClosestMatch(query, knowns);
    DistanceToSelf(query);
    assert Precedes(query, m, query);
    DistanceZero(query, m);
  }

  /**
   * Upper-case letters sort before lower-case ones, so on a tie the
   * sentinel `"UNKNOWN"` wins over any name starting with a small letter.
   */
  lemma UnknownWinsTies(query: string, name: string)
    requires |name| > 0 && 'a' <= name[0] <= 'z'
    requires Distance(query, "UNKNOWN") == Distance(query, name)
    ensures Precedes(query, "UNKNOWN", name) && !Precedes(query, name, "UNKNOWN")
  {
    assert LexLess("UNKNOWN", name);
    LexAsymmetric("UNKNOWN", name);
  }
}
