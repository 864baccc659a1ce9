/**
 * The context-window builder and the search loop of `main`: for every
 * matching line it records the match index and collects the lines within
 * the radius around it, clamped to the input.
 */
module Context {
  import opened Matcher

  /** One collected context line: its absolute 0-based index and its text. */
  datatype Entry = Entry(index: nat, text: string)

  type Window = seq<Entry>

  /** The first index of a window: `i - r`, saturating at 0. */
  function Lo(i: nat, r: nat): (lo: nat)
    ensures lo <= i
    ensures lo + r >= i
    ensures lo == 0 || lo + r == i
  {
    if i >= r then i - r else 0
  }

  /** The last index of a window: `i + r`, cut back to the last line. */
  function Hi(n: nat, i: nat, r: nat): (hi: nat)
    requires i < n
    ensures i <= hi < n
    ensures hi <= i + r
    ensures hi == n - 1 || hi == i + r
  {
    if i + r <= n - 1 then i + r else n - 1
  }

  /** The window around line `i`: every line from `Lo` to `Hi`, in order. */
  function WindowAt(lines: seq<string>, i: nat, r: nat): (w: Window)
    requires i < |lines|
    ensures |w| == Hi(|lines|, i, r) - Lo(i, r) + 1
    ensures forall k :: 0 <= k < |w| ==> w[k].index == Lo(i, r) + k && w[k].text == lines[w[k].index]
  {
    var lo := Lo(i, r);
    seq(Hi(|lines|, i, r) - lo + 1, k requires 0 <= k <= Hi(|lines|, i, r) - lo => Entry(lo + k, lines[lo + k]))
  }

  /** Line `j` is among the entries of `w`. */
  ghost predicate Covers(w: Window, j: int)
  {
    exists k :: 0 <= k < |w| && w[k].index == j
  }

  /** The indices of a window are consecutive and ascending. */
  ghost predicate Contiguous(w: Window)
  {
    forall k :: 0 < k < |w| ==> w[k].index == w[k - 1].index + 1
  }

  /**
   * The window holds exactly the existing lines whose distance to `i` is at
   * most `r`, contiguously and with their texts; it contains the match itself.
   */
  lemma WindowShape(lines: seq<string>, i: nat, r: nat)
    requires i < |lines|
    ensures var w := WindowAt(lines, i, r);
      && Contiguous(w)
      && w[0].index == (if i >= r then i - r else 0)
      && w[|w| - 1].index == (if i + r < |lines| then i + r else |lines| - 1)
      && (forall j :: Covers(w, j) <==> 0 <= j < |lines| && i - r <= j <= i + r)
      && Entry(i, lines[i]) in w
  {
    var w := WindowAt(lines, i, r);
    forall j | 0 <= j < |lines| && i - r <= j <= i + r
      ensures Covers(w, j)
    {
      assert w[j - Lo(i, r)].index == j;
    }
    forall j | Covers(w, j)
      ensures 0 <= j < |lines| && i - r <= j <= i + r
    {
      var k :| 0 <= k < |w| && w[k].index == j;
    }
    assert w[i - Lo(i, r)] == Entry(i, lines[i]);
  }

  /** A window has between 1 and 2r+1 lines, and exactly 2r+1 away from both ends. */
  lemma WindowLength(lines: seq<string>, i: nat, r: nat)
    requires i < |lines|
    ensures 1 <= |WindowAt(lines, i, r)| <= 2 * r + 1
    ensures r <= i && i + r <= |lines| - 1 ==> |WindowAt(lines, i, r)| == 2 * r + 1
  {
  }

  /** With radius 0 the window is the matched line alone. */
  lemma WindowRadiusZero(lines: seq<string>, i: nat)
    requires i < |lines|
    ensures WindowAt(lines, i, 0) == [Entry(i, lines[i])]
  {
  }

  /** The window entry at position `len/2`, the one the renderer highlights. */
  function CenterEntry(w: Window): (e: Entry)
    requires w != []
    ensures e in w
  {
    w[|w| / 2]
  }

  /** Away from both ends the highlighted entry is the match. */
  lemma CenterIsMatchWhenUnclamped(lines: seq<string>, i: nat, r: nat)
    requires i < |lines| && r <= i && i + r < |lines|
    ensures CenterEntry(WindowAt(lines, i, r)) == Entry(i, lines[i])
  {
  }

  /**
   * Cut only on the left, the highlighted entry lies after the match
   * whenever anything was cut: it is line (i + r + 1) / 2.
   */
  lemma CenterAfterMatchWhenLeftClamped(lines: seq<string>, i: nat, r: nat)
    requires i < |lines| && i + r < |lines|
    ensures var c := CenterEntry(WindowAt(lines, i, r)).index;
      && (i < r ==> c == (i + r + 1) / 2 && c > i)
      && (c == i <==> r <= i)
  {
  }

  /**
   * Cut only on the right, the highlighted entry never lies after the match,
   * and lies before it exactly when more than one line was cut.
   */
  lemma CenterBeforeMatchWhenRightClamped(lines: seq<string>, i: nat, r: nat)
    requires i < |lines| && r <= i && |lines| <= i + r
    ensures var c := CenterEntry(WindowAt(lines, i, r)).index;
      && c <= i
      && (c < i <==> i + r > |lines|)
  {
  }

  /** A match on the first line with radius 2 highlights line 1, not the match. */
  lemma CenterMissesFirstLineMatch(lines: seq<string>)
    requires |lines| >= 3
    ensures WindowAt(lines, 0, 2) == [Entry(0, lines[0]), Entry(1, lines[1]), Entry(2, lines[2])]
    ensures CenterEntry(WindowAt(lines, 0, 2)) == Entry(1, lines[1])
  {
    var w := WindowAt(lines, 0, 2);
    assert |w| == 3;
  }

  /**
   * Cut on both sides, the window is the whole input and the highlighted
   * line is the middle line `n / 2`, wherever the match lies.
   */
  lemma CenterWhenBothClamped(lines: seq<string>, i: nat, r: nat)
    requires i < |lines| && i < r && |lines| <= i + r
    ensures |WindowAt(lines, i, r)| == |lines|
    ensures forall k :: 0 <= k < |lines| ==> WindowAt(lines, i, r)[k] == Entry(k, lines[k])
    ensures CenterEntry(WindowAt(lines, i, r)).index == |lines| / 2
  {
  }

  /**
   * The inner loop of the search: walk `j` from `i - r` (saturating) to
   * `i + r` inclusive and keep `(j, lines[j])` for every `j` that names a line.
   */
  method CollectWindow(lines: seq<string>, i: nat, r: nat) returns (v: Window)
    requires i < |lines|
    ensures v == WindowAt(lines, i, r)
  {
    v := [];
    var lo := if i >= r then i - r else 0;
    for j := lo to i + r + 1
      invariant lo == Lo(i, r)
      invariant |v| == (if j < |lines| then j else |lines|) - lo
      invariant forall k :: 0 <= k < |v| ==> v[k] == Entry(lo + k, lines[lo + k])
    {
      if j < |lines| {
        v := v + [Entry(j, lines[j])];
      }
    }
  }

  /** One window per recorded match, in the same order. */
  function Contexts(lines: seq<string>, tags: seq<nat>, r: nat): (ctx: seq<Window>)
    requires forall k :: 0 <= k < |tags| ==> tags[k] < |lines|
    ensures |ctx| == |tags|
    ensures forall k :: 0 <= k < |ctx| ==> Entry(tags[k], lines[tags[k]]) in ctx[k]
    ensures forall k :: 0 <= k < |ctx| ==> Contiguous(ctx[k]) && ctx[k][0].index == Lo(tags[k], r)
    ensures forall k :: 0 <= k < |ctx| ==> ctx[k][|ctx[k]| - 1].index == Hi(|lines|, tags[k], r)
    ensures forall k :: 0 <= k < |ctx| ==> forall e :: e in ctx[k] ==> e.index < |lines| && e.text == lines[e.index]
  {
    var ctx := seq(|tags|, k requires 0 <= k < |tags| => WindowAt(lines, tags[k], r));
    assert forall k :: 0 <= k < |tags| ==> ctx[k][tags[k] - Lo(tags[k], r)] == Entry(tags[k], lines[tags[k]]);
    ctx
  }

  /**
   * The search loop of `main`: one pass over the lines; each matching line
   * has its index appended to `tags` and its window appended to `ctx`.
   */
  method Search(lines: seq<string>, term: string, ctxCount: int) returns (tags: seq<nat>, ctx: seq<Window>)
    requires 0 <= ctxCount
    ensures tags == MatchIndices(lines, term)
    ensures ctx == Contexts(lines, tags, ctxCount)
  {
    var ctxLines: nat := ctxCount;
    tags, ctx := [], [];
    for i := 0 to |lines|
      invariant tags == MatchIndices(lines[..i], term)
      invariant forall k :: 0 <= k < |tags| ==> tags[k] < i
      invariant |ctx| == |tags|
      invariant forall k :: 0 <= k < |ctx| ==> ctx[k] == WindowAt(lines, tags[k], ctxLines)
    {
      assert lines[..i + 1][..i] == lines[..i];
      if Contains(lines[i], term) {
        tags := tags + [i];
        var v := CollectWindow(lines, i, ctxLines);
        ctx := ctx + [v];
      }
    }
    assert lines[..|lines|] == lines;
  }
}
