/**
 * The search-and-context pipeline of `main` from the resolved lines to the
 * printed report: radius default, search, rendering.
 */
module Pipeline {
  import opened Options
  import opened Matcher
  import opened Context
  import opened Renderer

  /** The report printed for `lines`, `pattern` and the optional context count. */
  function Output(lines: seq<string>, pattern: string, ctxCount: Option<i32>): (out: seq<string>)
    requires ContextCount(ctxCount) >= 0
    ensures |out| == 1 + Total(Contexts(lines, MatchIndices(lines, pattern), ContextCount(ctxCount) as int))
                       + |MatchIndices(lines, pattern)|
  {
    var tags := MatchIndices(lines, pattern);
    Report(Contexts(lines, tags, ContextCount(ctxCount) as int))
  }

  /** `main` after the input is read and split: search the lines, then print the report. */
  method Run(lines: seq<string>, pattern: string, ctxCount: Option<i32>) returns (out: seq<string>)
    requires ContextCount(ctxCount) >= 0
    ensures out == Output(lines, pattern, ctxCount)
  {
    var count := ContextCount(ctxCount);
    var tags, ctx := Search(lines, pattern, count as int);
    out := Render(ctx);
  }

  /** Without a context count every window is the matched line alone. */
  lemma DefaultRadiusWindows(lines: seq<string>, pattern: string, k: nat)
    requires k < |MatchIndices(lines, pattern)|
    ensures var i := MatchIndices(lines, pattern)[k];
      Contexts(lines, MatchIndices(lines, pattern), ContextCount(None) as int)[k] == [Entry(i, lines[i])]
  {
    WindowRadiusZero(lines, MatchIndices(lines, pattern)[k]);
  }

  /** When no line contains the pattern, the report is exactly one separator. */
  lemma NoMatchOutput(lines: seq<string>, pattern: string, ctxCount: Option<i32>)
    requires ContextCount(ctxCount) >= 0
    requires forall j :: 0 <= j < |lines| ==> !Contains(lines[j], pattern)
    ensures MatchIndices(lines, pattern) == []
    ensures Output(lines, pattern, ctxCount) == [Separator()]
  {
  }

  /** A match with radius 0 prints as the sole, highlighted line of its block. */
  lemma RadiusZeroBlock(lines: seq<string>, i: nat)
    requires i < |lines|
    ensures Report([WindowAt(lines, i, 0)]) ==
      [Separator(), FormatLine(1, Entry(i, lines[i]), true), Separator()]
  {
    WindowRadiusZero(lines, i);
    var ctx := [WindowAt(lines, i, 0)];
    ReportAt(ctx, 0, 0);
    ReportAt(ctx, 0, 1);
    assert ctx[..0] == [];
  }

  /** A worked example: lines 0 and 2 contain "alpha". */
  lemma ExampleAlphaMatches()
    ensures MatchIndices(["alpha", "beta", "alpha again", "gamma"], "alpha") == [0, 2]
  {
    var lines := ["alpha", "beta", "alpha again", "gamma"];
    assert Contains("alpha", "alpha") && Contains("alpha again", "alpha");
    ContainsNoLonger("beta", "alpha");
    ContainsNoLonger("gamma", "alpha");
    assert lines[..1][..0] == [];
    assert MatchIndices(lines[..1], "alpha") == [0];
    assert lines[..2][..1] == lines[..1];
    assert MatchIndices(lines[..2], "alpha") == [0];
    assert lines[..3][..2] == lines[..2];
    assert MatchIndices(lines[..3], "alpha") == [0, 2];
    assert lines[..3] == lines[..|lines| - 1];
  }

  /**
   * With radius 1 the window of line 0 is cut on the left, so its highlighted
   * line is line 1, not the match; the window of line 2 is whole.
   */
  lemma ExampleAlphaWindows()
    ensures var lines := ["alpha", "beta", "alpha again", "gamma"];
      && Contexts(lines, [0, 2], 1) ==
           [[Entry(0, "alpha"), Entry(1, "beta")],
            [Entry(1, "beta"), Entry(2, "alpha again"), Entry(3, "gamma")]]
      && CenterEntry(Contexts(lines, [0, 2], 1)[0]) == Entry(1, "beta")
      && CenterEntry(Contexts(lines, [0, 2], 1)[1]) == Entry(2, "alpha again")
  {
    var lines := ["alpha", "beta", "alpha again", "gamma"];
    assert WindowAt(lines, 0, 1) == [Entry(0, "alpha"), Entry(1, "beta")];
    assert WindowAt(lines, 2, 1) == [Entry(1, "beta"), Entry(2, "alpha again"), Entry(3, "gamma")];
  }

  /** The same input with a pattern that occurs nowhere: one separator. */
  lemma ExampleNoMatch()
    ensures Output(["alpha", "beta", "alpha again", "gamma"], "zzz", Some(1)) == [Separator()]
  {
    var lines := ["alpha", "beta", "alpha again", "gamma"];
    forall j | 0 <= j < |lines|
      ensures !Contains(lines[j], "zzz")
    {
      AbsentFirstChar(lines[j], "zzz");
    }
    NoMatchOutput(lines, "zzz", Some(1));
  }
}
