/**
 * The renderer: a separator of 50 dashes, then for every window its lines
 * and one more separator. Inside a window the line at position `len/2` is
 * highlighted with `====>`; every other line gets six spaces. Every line
 * carries the 1-based match ordinal and the absolute line index.
 */
module Renderer {
  import opened Context

  /** `c` repeated `n` times (the `repeat` of a one-character text). */
  function Repeat(c: char, n: nat): (s: string)
    ensures |s| == n
    ensures forall k :: 0 <= k < n ==> s[k] == c
  {
    if n == 0 then "" else [c] + Repeat(c, n - 1)
  }

  /** The line printed before the first window and after every window. */
  function Separator(): (s: string)
    ensures |s| == 50
    ensures forall k :: 0 <= k < 50 ==> s[k] == '-'
  {
    Repeat('-', 50)
  }

  function Digit(d: nat): (c: char)
    requires d < 10
    ensures '0' <= c <= '9'
  {
    (48 + d) as char
  }

  predicate IsDigits(s: string)
  {
    forall k :: 0 <= k < |s| ==> '0' <= s[k] <= '9'
  }

  /** The decimal text of `n`, as the formatter prints an integer. */
  function Decimal(n: nat): (s: string)
    ensures |s| >= 1 && IsDigits(s)
    ensures |s| > 1 ==> s[0] != '0'
    decreases n
  {
    if n < 10 then [Digit(n)] else Decimal(n / 10) + [Digit(n % 10)]
  }

  /** The value of a string of decimal digits. */
  function DecimalValue(s: string): nat
    requires IsDigits(s)
  {
    if s == [] then 0 else DecimalValue(s[..|s| - 1]) * 10 + (s[|s| - 1] as int - '0' as int)
  }

  /** Reading back the decimal text gives the number: distinct numbers print differently. */
  lemma {:induction false} DecimalRoundTrip(n: nat)
    ensures DecimalValue(Decimal(n)) == n
    decreases n
  {
    if n >= 10 {
      var s := Decimal(n);
      assert s[..|s| - 1] == Decimal(n / 10);
      DecimalRoundTrip(n / 10);
    }
  }

  /** `Match_<ordinal>. line_<index>`: what a printed line starts with. */
  function Label(ordinal: nat, index: nat): (s: string)
    ensures |s| == 13 + |Decimal(ordinal)| + |Decimal(index)|
    ensures s[..6] == "Match_" && s[6..6 + |Decimal(ordinal)|] == Decimal(ordinal)
    ensures s[6 + |Decimal(ordinal)|..] == ". line_" + Decimal(index)
  {
    "Match_" + Decimal(ordinal) + ". line_" + Decimal(index)
  }

  const Highlight: string := ".====> "
  const Plain: string := ".      "

  /** One printed window line. */
  function FormatLine(ordinal: nat, e: Entry, highlighted: bool): (s: string)
    ensures |s| == |Label(ordinal, e.index)| + 7 + |e.text|
    ensures s[..|Label(ordinal, e.index)|] == Label(ordinal, e.index)
    ensures s[|Label(ordinal, e.index)| + 7..] == e.text
  {
    Label(ordinal, e.index) + (if highlighted then Highlight else Plain) + e.text
  }

  /** The column holding `=` on a highlighted line and a space on any other. */
  function MarkerColumn(ordinal: nat, index: nat): nat
  {
    |Label(ordinal, index)| + 1
  }

  /**
   * The marker of a printed window line is `.====> ` when highlighted and a
   * dot and six spaces otherwise; its marker column tells the two apart, and
   * no such line looks like a separator.
   */
  lemma FormatLineShape(ordinal: nat, e: Entry, highlighted: bool)
    ensures var s := FormatLine(ordinal, e, highlighted);
      var l := |Label(ordinal, e.index)|;
      && s[l..l + 7] == (if highlighted then ".====> " else ".      ")
      && (s[MarkerColumn(ordinal, e.index)] == '=' <==> highlighted)
      && s[0] == 'M' && s != Separator()
  {
    var s := FormatLine(ordinal, e, highlighted);
    var l := |Label(ordinal, e.index)|;
    assert s[l + 1] == (if highlighted then Highlight else Plain)[1];
  }

  /** The printed lines of one window; `ordinal` is the 1-based match number. */
  function Block(ordinal: nat, w: Window): (b: seq<string>)
    ensures |b| == |w|
    ensures forall p :: 0 <= p < |b| ==>
      && |b[p]| == |Label(ordinal, w[p].index)| + 7 + |w[p].text|
      && b[p][..|Label(ordinal, w[p].index)|] == Label(ordinal, w[p].index)
      && b[p][|Label(ordinal, w[p].index)| + 7..] == w[p].text
  {
    seq(|w|, p requires 0 <= p < |w| => FormatLine(ordinal, w[p], p == |w| / 2))
  }

  /** Exactly one line of a window is highlighted: the one at position `len/2`. */
  lemma BlockHighlightsMiddle(ordinal: nat, w: Window, p: nat)
    requires p < |w|
    ensures Block(ordinal, w)[p][MarkerColumn(ordinal, w[p].index)] == '=' <==> p == |w| / 2
  {
    FormatLineShape(ordinal, w[p], p == |w| / 2);
  }

  /** The number of elements over all groups. */
  function Total<T>(groups: seq<seq<T>>): nat
  {
    if groups == [] then 0 else Total(groups[..|groups| - 1]) + |groups[|groups| - 1]|
  }

  /** A separator, then every group followed by a separator. */
  function Framed<T>(sep: T, groups: seq<seq<T>>): (out: seq<T>)
    ensures |out| == 1 + Total(groups) + |groups|
    ensures out[0] == sep
  {
    if groups == [] then [sep]
    else
      var n := |groups| - 1;
      Framed(sep, groups[..n]) + groups[n] + [sep]
  }

  /** Where group `k` starts: after the first separator and all earlier groups with theirs. */
  function Start<T>(groups: seq<seq<T>>, k: nat): nat
    requires k <= |groups|
  {
    1 + Total(groups[..k]) + k
  }

  /** Group `k` occupies the lines from `Start(groups, k)` in its own order, and a separator follows it. */
  lemma {:induction false} FramedAt<T>(sep: T, groups: seq<seq<T>>, k: nat, p: nat)
    requires k < |groups| && p <= |groups[k]|
    ensures Start(groups, k) + p < |Framed(sep, groups)|
    ensures Framed(sep, groups)[Start(groups, k) + p] == if p < |groups[k]| then groups[k][p] else sep
    decreases |groups|
  {
    var n := |groups| - 1;
    var front := groups[..n];
    var head := Framed(sep, front);
    if k < n {
      assert front[..k] == groups[..k];
      FramedAt(sep, front, k, p);
    } else {
      assert groups[..k] == front;
      assert Start(groups, k) == |head|;
    }
  }

  /** The printed lines of every window, with ordinals 1, 2, ... */
  function Blocks(ctx: seq<Window>): (bs: seq<seq<string>>)
    ensures |bs| == |ctx|
  {
    seq(|ctx|, k requires 0 <= k < |ctx| => Block(k + 1, ctx[k]))
  }

  lemma {:induction false} TotalBlocks(ctx: seq<Window>)
    ensures Total(Blocks(ctx)) == Total(ctx)
    decreases |ctx|
  {
    if ctx != [] {
      var n := |ctx| - 1;
      assert Blocks(ctx)[..n] == Blocks(ctx[..n]);
      TotalBlocks(ctx[..n]);
    }
  }

  /** The whole printed report: 1 + (number of window lines) + (number of windows) lines. */
  function Report(ctx: seq<Window>): (out: seq<string>)
    ensures |out| == 1 + Total(ctx) + |ctx|
    ensures out[0] == Separator()
    ensures ctx == [] ==> out == [Separator()]
  {
    TotalBlocks(ctx);
    Framed(Separator(), Blocks(ctx))
  }

  /**
   * The report line by line: window `k` occupies the `|ctx[k]|` lines from
   * `Start(ctx, k)` in its own order, each formatted with ordinal `k + 1`
   * and highlighted exactly at `len/2`, and a separator follows it.
   */
  lemma ReportAt(ctx: seq<Window>, k: nat, p: nat)
    requires k < |ctx| && p <= |ctx[k]|
    ensures Start(ctx, k) + p < |Report(ctx)|
    ensures Report(ctx)[Start(ctx, k) + p] ==
      if p < |ctx[k]| then FormatLine(k + 1, ctx[k][p], p == |ctx[k]| / 2) else Separator()
  {
    var bs := Blocks(ctx);
    var sep := Separator();
    assert Report(ctx) == Framed(sep, bs);
    TotalBlocks(ctx[..k]);
    assert bs[..k] == Blocks(ctx[..k]);
    assert Start(ctx, k) == Start(bs, k);
    FramedAt(sep, bs, k, p);
  }

  /** The inner rendering loop: print the lines of window number `ordinal`, highlighting position `len/2`. */
  method RenderWindow(ordinal: nat, w: Window) returns (lines: seq<string>)
    ensures lines == Block(ordinal, w)
  {
    var middle := |w| / 2;
    lines := [];
    for j := 0 to |w|
      invariant |lines| == j
      invariant forall p :: 0 <= p < j ==> lines[p] == FormatLine(ordinal, w[p], p == middle)
    {
      if j == middle {
        lines := lines + [FormatLine(ordinal, w[j], true)];
      } else {
        lines := lines + [FormatLine(ordinal, w[j], false)];
      }
    }
  }

  /** The rendering loops: print the separator, then every window followed by a separator. */
  method Render(ctx: seq<Window>) returns (out: seq<string>)
    ensures out == Report(ctx)
  {
    ghost var bs := Blocks(ctx);
    var sep := Separator();
    out := [sep];
    for i := 0 to |ctx|
      invariant out == Framed(sep, bs[..i])
    {
      var lines := RenderWindow(i + 1, ctx[i]);
      out := out + lines + [sep];
      assert bs[..i + 1][..i] == bs[..i];
    }
    assert bs[..|ctx|] == bs;
  }
}
