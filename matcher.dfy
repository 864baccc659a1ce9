/**
 * The line matcher: one left-to-right pass over the lines that records the
 * 0-based index of every line containing the search term as a literal,
 * case-sensitive substring.
 */
module Matcher {

  /** `term` is a prefix of `line` or occurs in its tail (the empty term occurs everywhere). */
  predicate Contains(line: string, term: string)
    ensures term <= line ==> Contains(line, term)
    ensures Contains(line, term) ==> |term| <= |line|
    decreases |line|
  {
    term <= line || (|line| > 0 && Contains(line[1..], term))
  }

  /** `term` occurs in `line` starting at position `k`. */
  ghost predicate OccursAt(line: string, term: string, k: int)
  {
    0 <= k && k + |term| <= |line| && line[k..k + |term|] == term
  }

  /** Where `Contains` holds, the term occurs at some position. */
  lemma {:induction false} ContainsOccurs(line: string, term: string) returns (k: nat)
    requires Contains(line, term)
    ensures OccursAt(line, term, k)
    decreases |line|
  {
    if term <= line {
      k := 0;
      assert line[0..|term|] == term;
    } else {
      var k' := ContainsOccurs(line[1..], term);
      k := k' + 1;
      assert line[k..k + |term|] == line[1..][k'..k' + |term|];
    }
  }

  /** Where the term occurs at position `k`, `Contains` holds. */
  lemma {:induction false} OccursContains(line: string, term: string, k: nat)
    requires OccursAt(line, term, k)
    ensures Contains(line, term)
    decreases k
  {
    if k == 0 {
      assert term <= line;
    } else {
      assert line[1..][k - 1..k - 1 + |term|] == line[k..k + |term|];
      OccursContains(line[1..], term, k - 1);
    }
  }

  /** `Contains` is exactly "occurs at some position". */
  lemma ContainsIffOccurs(line: string, term: string)
    ensures Contains(line, term) <==> exists k :: OccursAt(line, term, k)
  {
    if Contains(line, term) {
      var k := ContainsOccurs(line, term);
    }
    if k :| OccursAt(line, term, k) {
      OccursContains(line, term, k);
    }
  }

  /** A term whose first character is absent from the line does not occur in it. */
  lemma AbsentFirstChar(line: string, term: string)
    requires term != [] && term[0] !in line
    ensures !Contains(line, term)
  {
    ContainsIffOccurs(line, term);
  }

  /** A line no longer than the term contains it only when the two are equal. */
  lemma ContainsNoLonger(line: string, term: string)
    requires |line| <= |term|
    ensures Contains(line, term) <==> line == term
  {
    ContainsIffOccurs(line, term);
    if k :| OccursAt(line, term, k) {
      assert k == 0 && line[0..|term|] == line;
    }
    if line == term {
      assert OccursAt(line, term, 0);
    }
  }

  /** Strictly ascending, hence without duplicates. */
  ghost predicate StrictlyIncreasing(s: seq<nat>)
  {
    forall a, b :: 0 <= a < b < |s| ==> s[a] < s[b]
  }

  /**
   * The indices the matcher records, in the order it records them: those of
   * the lines before the last one, then the last one's if it matches.
   */
  function MatchIndices(lines: seq<string>, term: string): (tags: seq<nat>)
    ensures forall k :: 0 <= k < |tags| ==> tags[k] < |lines|
    ensures StrictlyIncreasing(tags)
    ensures forall j :: j in tags <==> 0 <= j < |lines| && Contains(lines[j], term)
    decreases |lines|
  {
    if lines == [] then []
    else
      var n := |lines| - 1;
      var front := MatchIndices(lines[..n], term);
      assert forall j :: 0 <= j < n ==> lines[..n][j] == lines[j];
      if Contains(lines[n], term) then front + [n] else front
  }
}
