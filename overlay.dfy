/** The caption overlay's display controller (class OverlayWindow of
    ui_overlay.py): the current line, the bounded history with
    archive-on-mutation, the expand/collapse toggle with its one automatic
    expansion, and the adaptive-height state machine with its deferred shrink
    and its per-frame animation.

    Widget layout is outside the model: the heights the widgets report
    (winfo_reqheight) are the `Layout` argument of every operation that
    re-measures. Timers are explicit: a pending shrink job is a field holding
    the height it will commit, fired by `FireShrinkJob`; a scheduled animation
    frame is fired by `AnimateTick`; the delayed automatic toggle is a flag
    fired by `FireAutoToggle`.

    Heights are Dafny `real`s, which are exact: an idealisation of the Python
    floats (and of the ints the widgets report). */
module Overlay {
  import opened Wrappers
  import opened PyStrings

  datatype HistoryEntry = HistoryEntry(text: string, time: string)

  /** What one history row shows: its text, its "[HH:MM:SS]" stamp and its bullet. */
  datatype RowView = RowView(text: string, time: string, bullet: string)

  /** A required height as winfo_reqheight reports it: never negative. */
  type Height = h: real | h >= 0.0

  /** Required heights reported by the content frame, the control bar and the history frame. */
  datatype Layout = Layout(contentHeight: Height, controlHeight: Height, historyHeight: Height)

  /** A pending `_execute_shrink(h)` timer: the height it commits and its delay. */
  datatype ShrinkJob = ShrinkJob(height: real, delayMs: int)

  /** current_height, target_height, _animating, _shrink_job and _pending_shrink_height. */
  datatype Geometry = Geometry(current: real, target: real, animating: bool,
                               shrinkJob: Option<ShrinkJob>, pending: Option<real>)

  /** The configuration keys the controller reads: ui.height (default 200),
      ui.history.count (default 2), ui.animation.shrink_delay (default 5.0 s)
      and ui.animation.shrink_factor (default 0.01). */
  datatype UiConfig = UiConfig(minHeight: real, historyCount: int,
                               shrinkDelay: real, shrinkFactor: real)

  const DefaultConfig := UiConfig(200.0, 2, 5.0, 0.01)

  function Abs(x: real): real { if x < 0.0 then -x else x }
  function Max(a: real, b: real): real { if a < b then b else a }

  /** Python's int() on a float: truncation toward zero. */
  function Trunc(x: real): int { if x >= 0.0 then x.Floor else -((-x).Floor) }

  // ---------------------------------------------------------------------------
  // Metadata suffixes and the clean text of an archived line

  const TimingMarker: string := " (耗时"
  const FinalMarker: string := " [Final]"
  const LenMarker: string := " [Len]"
  const TimeMarker: string := " [Time]"

  predicate MarkerFree(s: string) {
    !Contains(s, TimingMarker) && !Contains(s, FinalMarker)
    && !Contains(s, LenMarker) && !Contains(s, TimeMarker)
  }

  predicate MarkerAt(s: string, k: int) {
    OccursAt(s, TimingMarker, k) || OccursAt(s, FinalMarker, k)
    || OccursAt(s, LenMarker, k) || OccursAt(s, TimeMarker, k)
  }

  /** Substrings of a marker-free string are marker-free. */
  lemma MarkerFreeSlice(s: string, i: nat, j: nat)
    requires i <= j <= |s| && MarkerFree(s)
    ensures MarkerFree(s[i..j])
  {
    NotContainsSlice(s, i, j, TimingMarker);
    NotContainsSlice(s, i, j, FinalMarker);
    NotContainsSlice(s, i, j, LenMarker);
    NotContainsSlice(s, i, j, TimeMarker);
  }

  /** The text archived for a superseded line (`clean_text`): the line cut at
      the timing annotation, then at each reason tag, then stripped. */
  function CleanText(s: string): string {
    Strip(SplitHead(SplitHead(SplitHead(SplitHead(s, TimingMarker), FinalMarker), LenMarker), TimeMarker))
  }

  /** The clean text holds no annotation. */
  lemma CleanTextMarkerFree(s: string)
    ensures MarkerFree(CleanText(s))
  {
    var c4 := SplitHead(SplitHead(SplitHead(SplitHead(s, TimingMarker), FinalMarker), LenMarker), TimeMarker);
    CleanCutMarkerFree(s);
    StripNotContains(c4, TimingMarker);
    StripNotContains(c4, FinalMarker);
    StripNotContains(c4, LenMarker);
    StripNotContains(c4, TimeMarker);
  }

  /** The clean text is the stripped part of the line before its first
      annotation (or of the whole line when there is none). */
  lemma CleanTextIsHead(s: string)
    ensures exists k :: 0 <= k <= |s| && CleanText(s) == Strip(s[..k]) && MarkerFree(s[..k])
                        && (k == |s| || MarkerAt(s, k))
  {
    var c4 := SplitHead(SplitHead(SplitHead(SplitHead(s, TimingMarker), FinalMarker), LenMarker), TimeMarker);
    var k := |c4|;
    CleanCutMarkerFree(s);
    CleanCutEndsAtMarker(s);
    CleanCutsArePrefixes(s);
    assert CleanText(s) == Strip(s[..k]);
  }

  /** The four cuts stop at the end of the line or at an annotation. */
  lemma CleanCutEndsAtMarker(s: string)
    ensures var k := |SplitHead(SplitHead(SplitHead(SplitHead(s, TimingMarker), FinalMarker), LenMarker), TimeMarker)|;
            k == |s| || MarkerAt(s, k)
  {
    var c1 := SplitHead(s, TimingMarker);
    var c2 := SplitHead(c1, FinalMarker);
    var c3 := SplitHead(c2, LenMarker);
    var c4 := SplitHead(c3, TimeMarker);
    CleanCutsArePrefixes(s);
    if |c4| < |c3| {
      CutInPrefix(s, c3, TimeMarker);
    } else if |c3| < |c2| {
      CutInPrefix(s, c2, LenMarker);
    } else if |c2| < |c1| {
      CutInPrefix(s, c1, FinalMarker);
    }
  }

  /** Each of the four cuts is a prefix of the line. */
  lemma CleanCutsArePrefixes(s: string)
    ensures var c1 := SplitHead(s, TimingMarker);
            var c2 := SplitHead(c1, FinalMarker);
            var c3 := SplitHead(c2, LenMarker);
            var c4 := SplitHead(c3, TimeMarker);
            c2 == s[..|c2|] && c3 == s[..|c3|] && c4 == s[..|c4|]
  {
    var c1 := SplitHead(s, TimingMarker);
    var c2 := SplitHead(c1, FinalMarker);
    var c3 := SplitHead(c2, LenMarker);
    var c4 := SplitHead(c3, TimeMarker);
    PrefixOfPrefix(s, c1, c2);
    PrefixOfPrefix(s, c2, c3);
    PrefixOfPrefix(s, c3, c4);
  }

  /** A prefix of a prefix is a prefix. */
  lemma PrefixOfPrefix(s: string, t: string, u: string)
    requires |t| <= |s| && t == s[..|t|] && |u| <= |t| && u == t[..|u|]
    ensures u == s[..|u|]
  {
    assert s[..|t|][..|u|] == s[..|u|];
  }

  /** A cut made inside a prefix of `s` falls on an occurrence in `s`. */
  lemma CutInPrefix(s: string, t: string, sep: string)
    requires |sep| > 0 && |t| <= |s| && t == s[..|t|] && |SplitHead(t, sep)| < |t|
    ensures OccursAt(s, sep, |SplitHead(t, sep)|)
  {
    OccursInPrefix(s, |t|, sep, |SplitHead(t, sep)|);
  }

  /** The four cuts leave a marker-free prefix. */
  lemma CleanCutMarkerFree(s: string)
    ensures MarkerFree(SplitHead(SplitHead(SplitHead(SplitHead(s, TimingMarker), FinalMarker), LenMarker), TimeMarker))
  {
    var c1 := SplitHead(s, TimingMarker);
    var c2 := SplitHead(c1, FinalMarker);
    var c3 := SplitHead(c2, LenMarker);
    var c4 := SplitHead(c3, TimeMarker);
    NotContainsSlice(c1, 0, |c4|, TimingMarker);
    assert c1[0..|c4|] == c4;
    NotContainsSlice(c2, 0, |c4|, FinalMarker);
    assert c2[0..|c4|] == c4;
    NotContainsSlice(c3, 0, |c4|, LenMarker);
    assert c3[0..|c4|] == c4;
  }

  // ---------------------------------------------------------------------------
  // History rows: zero-width spaces around Han characters, bounded history

  const ZeroWidthSpace: char := '\U{200B}'

  /** The character class [一-龥] of _zh_pattern. */
  predicate IsHan(c: char) { '\U{4E00}' <= c <= '\U{9FA5}' }

  /** _zh_pattern.sub: every Han character is wrapped in zero-width spaces so
      that the label may break lines between them. */
  function WrapHan(s: string): (r: string)
    ensures |r| >= |s|
  {
    if s == [] then []
    else (if IsHan(s[0]) then [ZeroWidthSpace, s[0], ZeroWidthSpace] else [s[0]]) + WrapHan(s[1..])
  }

  /** The visible text: s without its zero-width spaces. */
  function Visible(s: string): (r: string)
    ensures |r| <= |s|
    ensures ZeroWidthSpace !in r
  {
    if s == [] then [] else (if s[0] == ZeroWidthSpace then [] else [s[0]]) + Visible(s[1..])
  }

  /** Wrapping adds nothing visible: a row shows the archived text unchanged. */
  lemma {:induction false} WrapHanInvisible(s: string)
    ensures Visible(WrapHan(s)) == Visible(s)
    ensures ZeroWidthSpace !in s ==> Visible(WrapHan(s)) == s
  {
    if s != [] {
      var p := if IsHan(s[0]) then [ZeroWidthSpace, s[0], ZeroWidthSpace] else [s[0]];
      WrapHanInvisible(s[1..]);
      VisibleAppend(p, WrapHan(s[1..]));
      assert s == [s[0]] + s[1..];
      VisibleAppend([s[0]], s[1..]);
      if IsHan(s[0]) {
        assert p[1..] == [s[0], ZeroWidthSpace];
        assert p[1..][1..] == [ZeroWidthSpace];
        assert Visible([ZeroWidthSpace]) == [];
        assert Visible(p) == Visible([s[0]]);
      }
      if ZeroWidthSpace !in s {
        assert ZeroWidthSpace !in s[1..];
      }
    }
  }

  lemma {:induction false} VisibleAppend(a: string, b: string)
    ensures Visible(a + b) == Visible(a) + Visible(b)
  {
    if a == [] {
      assert a + b == b;
    } else {
      var p := if a[0] == ZeroWidthSpace then [] else [a[0]];
      assert (a + b)[0] == a[0];
      assert (a + b)[1..] == a[1..] + b;
      VisibleAppend(a[1..], b);
      calc {
        Visible(a + b);
        p + Visible(a[1..] + b);
        p + (Visible(a[1..]) + Visible(b));
        (p + Visible(a[1..])) + Visible(b);
        Visible(a) + Visible(b);
      }
    }
  }

  /** The number of history entries kept: ui.history.count, and none when it is negative. */
  function Capacity(count: int): nat { if count < 0 then 0 else count }

  /** The labels of the history rows (one row per configured slot): filled rows
      for the entries, empty rows after them. */
  function RenderRows(history: seq<HistoryEntry>, count: int): (rows: seq<RowView>)
  {
    seq(Capacity(count), i requires 0 <= i < Capacity(count) =>
      if i < |history| then RowView(WrapHan(history[i].text), "[" + history[i].time + "]", "•")
      else RowView("", "", ""))
  }

  /** There is one row per history slot; slot i shows entry i, oldest first,
      with its text wrapped for display and its time in brackets, and the
      slots past the history are blank. */
  lemma RenderRowsShows(history: seq<HistoryEntry>, count: int)
    ensures |RenderRows(history, count)| == Capacity(count)
    ensures forall i :: 0 <= i < |history| && i < Capacity(count) ==>
      RenderRows(history, count)[i] == RowView(WrapHan(history[i].text), "[" + history[i].time + "]", "•")
    ensures forall i :: |history| <= i < Capacity(count) ==> RenderRows(history, count)[i] == RowView("", "", "")
    ensures forall i :: 0 <= i < |history| && i < Capacity(count) ==>
      Visible(RenderRows(history, count)[i].text) == Visible(history[i].text)
  {
    forall i | 0 <= i < |history| && i < Capacity(count)
      ensures Visible(RenderRows(history, count)[i].text) == Visible(history[i].text)
    {
      WrapHanInvisible(history[i].text);
    }
  }

  /** history.append(e), then pop(0) once when the configured count is exceeded. */
  function Archive(history: seq<HistoryEntry>, e: HistoryEntry, count: int): (r: seq<HistoryEntry>)
    ensures |history| <= Capacity(count) ==> |r| <= Capacity(count)
    ensures history != [] && |history| <= Capacity(count) ==> r != []
    ensures r != [] ==> r[|r| - 1] == e
    ensures |history| < Capacity(count) ==> r == history + [e]
  {
    var h := history + [e];
    if |h| > count then h[1..] else h
  }

  /** The last n elements of s (all of s when it is shorter). */
  function LastN<T>(s: seq<T>, n: nat): seq<T> {
    if |s| <= n then s else s[|s| - n..]
  }

  /** Archiving entries one by one, starting from a history within capacity. */
  function ArchiveAll(history: seq<HistoryEntry>, es: seq<HistoryEntry>, count: int): seq<HistoryEntry>
    decreases |es|
  {
    if es == [] then history else ArchiveAll(Archive(history, es[0], count), es[1..], count)
  }

  /** One archive from a history within capacity keeps the newest entries. */
  lemma ArchiveIsLastN(history: seq<HistoryEntry>, e: HistoryEntry, count: int)
    requires |history| <= Capacity(count)
    ensures Archive(history, e, count) == LastN(history + [e], Capacity(count))
  {
  }

  /** Keeping the last n, then appending and keeping the last n again, is
      keeping the last n of the whole. */
  lemma LastNAppend<T>(s: seq<T>, t: seq<T>, n: nat)
    ensures LastN(LastN(s, n) + t, n) == LastN(s + t, n)
  {
    if |s| > n {
      var l := s[|s| - n..];
      assert (l + t)[|l + t| - n..] == (s + t)[|s + t| - n..] by {
        if |t| <= n {
          assert (l + t)[|l + t| - n..] == l[|t|..] + t;
          assert (s + t)[|s + t| - n..] == s[|s| - n + |t|..] + t;
        } else {
          assert (l + t)[|l + t| - n..] == t[|t| - n..];
          assert (s + t)[|s + t| - n..] == t[|t| - n..];
        }
      }
    }
  }

  /** Eviction is FIFO: after any number of archives, the history holds exactly
      the most recent Capacity(count) entries, oldest first. */
  lemma {:induction false} ArchiveKeepsNewest(history: seq<HistoryEntry>, es: seq<HistoryEntry>, count: int)
    requires |history| <= Capacity(count)
    ensures ArchiveAll(history, es, count) == LastN(history + es, Capacity(count))
    decreases |es|
  {
    if es != [] {
      var n := Capacity(count);
      var h1 := Archive(history, es[0], count);
      calc {
        ArchiveAll(history, es, count);
        ArchiveAll(h1, es[1..], count);
        { ArchiveKeepsNewest(h1, es[1..], count); }
        LastN(h1 + es[1..], n);
        { ArchiveIsLastN(history, es[0], count); }
        LastN(LastN(history + [es[0]], n) + es[1..], n);
        { LastNAppend(history + [es[0]], es[1..], n); }
        LastN((history + [es[0]]) + es[1..], n);
        { assert (history + [es[0]]) + es[1..] == history + es; }
        LastN(history + es, n);
      }
    }
  }

  // ---------------------------------------------------------------------------
  // Resize state machine (update_height, _execute_shrink, _animate_loop)

  /** The window height update_height asks for. */
  function FinalHeight(layout: Layout, expanded: bool, minHeight: real): real {
    Max(minHeight, layout.contentHeight + layout.controlHeight)
    + (if expanded then layout.historyHeight else 0.0) + 10.0
  }

  /** The requested height is at least ui.height and the content plus the
      control bar, each with a 10-unit margin; expanding adds exactly the
      history frame's height. */
  lemma FinalHeightBounds(layout: Layout, expanded: bool, minHeight: real)
    ensures FinalHeight(layout, expanded, minHeight) >= minHeight + 10.0
    ensures FinalHeight(layout, expanded, minHeight) >= layout.contentHeight + layout.controlHeight + 10.0
    ensures FinalHeight(layout, expanded, minHeight) > 0.0
    ensures FinalHeight(layout, true, minHeight) == FinalHeight(layout, false, minHeight) + layout.historyHeight
  {
  }

  /** The delay of a new shrink job: one second when the gap exceeds 100,
      the configured shrink_delay otherwise, in whole milliseconds. */
  function ShrinkDelayMs(gap: real, shrinkDelay: real): int {
    Trunc((if gap > 100.0 then 1.0 else shrinkDelay) * 1000.0)
  }

  lemma MulNonNegative(a: real, b: real)
    requires a >= 0.0 && b >= 0.0
    ensures a * b >= 0.0
  {
  }

  /** One animation step for the gap diff = target - current: growth moves at
      least one unit (0.4 of the gap when that is more) and never past the
      target; shrink moves at most 2 units, and with a factor in (0, 1] at least
      the factor and never past the target. */
  function StepSize(diff: real, factor: real): (step: real)
    ensures diff >= 1.0 ==> 1.0 <= step <= diff
    ensures diff <= -1.0 ==> -2.0 <= step
    ensures diff <= -1.0 && 0.0 < factor <= 1.0 ==> diff <= step <= -factor
  {
    if diff > 0.0 then
      Max(1.0, diff * 0.4)
    else
      if diff <= -1.0 && 0.0 < factor <= 1.0 then
        MulNonNegative(-diff, 1.0 - factor);
        assert diff * factor - diff == (-diff) * (1.0 - factor);
        MulNonNegative(-diff - 1.0, factor);
        assert -factor - diff * factor == (-diff - 1.0) * factor;
        Max(-2.0, diff * factor)
      else
        Max(-2.0, diff * factor)
  }

  /** An idle window sits at its target: the animation loop runs whenever the
      window is not where it should be. */
  predicate Settled(g: Geometry) {
    !g.animating ==> g.current == g.target
  }

  /** One frame of _animate_loop. Within one unit of the target it snaps there
      and stops; otherwise it moves toward the target and keeps animating.
      (The second stop test of the source, on the same `abs(diff) < 1.0`, can
      never succeed once the first has failed, so it has no counterpart.) */
  function Tick(g: Geometry, factor: real): (r: Geometry)
    ensures r.target == g.target && r.shrinkJob == g.shrinkJob && r.pending == g.pending
    ensures Abs(g.target - g.current) < 1.0 ==> r.current == g.target && !r.animating
    ensures Abs(g.target - g.current) >= 1.0 ==> r.animating
    ensures g.target - g.current >= 1.0 ==> g.current + 1.0 <= r.current <= g.target
    ensures g.target - g.current <= -1.0 ==> g.current - 2.0 <= r.current
    ensures g.target - g.current <= -1.0 && 0.0 < factor <= 1.0 ==>
              g.target <= r.current <= g.current - factor
    ensures Settled(r)
  {
    var diff := g.target - g.current;
    if Abs(diff) < 1.0 then
      g.(current := g.target, animating := false)
    else
      g.(current := g.current + StepSize(diff, factor), animating := true)
  }

  /** update_height once the final height is known. Growth, or any immediate
      request, cancels the pending shrink job and sets the target; an immediate
      shrink snaps both heights. A non-immediate shrink only (re)arms the shrink
      job, unless one is pending for a height within 2 units. */
  function Resize(g: Geometry, final: real, immediate: bool, cfg: UiConfig): (r: Geometry)
    ensures final > g.target || immediate ==>
              r.shrinkJob == None && r.target == final && r.pending == g.pending
    ensures immediate && final < g.target ==> r.current == final && !r.animating
    ensures (final > g.target || immediate) && !(immediate && final < g.target) && g.animating ==>
              r.current == g.current && r.animating
    ensures !immediate && final <= g.target ==>
              r.target == g.target && r.current == g.current && r.animating == g.animating
    ensures (!immediate && final < g.target && g.shrinkJob.Some? && g.pending.Some?
             && Abs(final - g.pending.value) < 2.0) ==> r == g
    ensures (!immediate && final < g.target
             && !(g.shrinkJob.Some? && g.pending.Some? && Abs(final - g.pending.value) < 2.0)) ==>
              r.shrinkJob == Some(ShrinkJob(final, ShrinkDelayMs(g.target - final, cfg.shrinkDelay)))
              && r.pending == Some(final)
    ensures !immediate && final == g.target ==> r == g
    ensures final > g.target || immediate ==> Settled(r)
    ensures Settled(g) ==> Settled(r)
  {
    if final > g.target || immediate then
      var g1 := g.(shrinkJob := None);
      if immediate && final < g.target then
        g1.(animating := false, target := final, current := final)
      else
        var g2 := g1.(target := final);
        if !g2.animating then Tick(g2, cfg.shrinkFactor) else g2
    else if final < g.target then
      if g.shrinkJob.Some? && g.pending.Some? && Abs(final - g.pending.value) < 2.0 then
        g
      else
        g.(pending := Some(final),
           shrinkJob := Some(ShrinkJob(final, ShrinkDelayMs(g.target - final, cfg.shrinkDelay))))
    else
      g
  }

  /** _execute_shrink(h): the job slot empties; the target drops to h only when
      h is below it, and then the animation is started if it is idle. */
  function Commit(g: Geometry, h: real, factor: real): (r: Geometry)
    ensures r.shrinkJob == None && r.pending == g.pending
    ensures h < g.target ==> r.target == h
    ensures h >= g.target ==> r == g.(shrinkJob := None)
    ensures h < g.target ==> Settled(r)
    ensures Settled(g) ==> Settled(r)
  {
    var g1 := g.(shrinkJob := None);
    if h < g1.target then
      var g2 := g1.(target := h);
      if !g2.animating then Tick(g2, factor) else g2
    else
      g1
  }

  /** The pending-shrink slot is coherent: a pending job is for the recorded
      pending height, which lies below the current target. */
  predicate GeomValid(g: Geometry) {
    g.shrinkJob.Some? ==>
      g.pending == Some(g.shrinkJob.value.height) && g.shrinkJob.value.height < g.target
  }

  /** update_height keeps the shrink slot coherent and keeps a settled window
      settled; a fired shrink job keeps both as well. */
  lemma ResizeKeepsValid(g: Geometry, final: real, immediate: bool, cfg: UiConfig)
    requires GeomValid(g) && Settled(g)
    ensures GeomValid(Resize(g, final, immediate, cfg)) && Settled(Resize(g, final, immediate, cfg))
    ensures g.shrinkJob.Some? ==>
              GeomValid(Commit(g, g.shrinkJob.value.height, cfg.shrinkFactor))
              && Settled(Commit(g, g.shrinkJob.value.height, cfg.shrinkFactor))
  {
  }

  /** Because growth cancels the job and nothing else raises the target, the
      pending job, when it fires, always commits its height. */
  lemma FiredJobCommits(g: Geometry, factor: real)
    requires GeomValid(g) && g.shrinkJob.Some?
    ensures Commit(g, g.shrinkJob.value.height, factor).target == g.shrinkJob.value.height
  {
  }

  /** n frames of _animate_loop. */
  function Ticks(g: Geometry, factor: real, n: nat): Geometry
    decreases n
  {
    if n == 0 then g else Ticks(Tick(g, factor), factor, n - 1)
  }

  /** Once at the target, further frames change nothing. */
  lemma {:induction false} TicksAtTarget(g: Geometry, factor: real, n: nat)
    requires g.current == g.target && !g.animating
    ensures Ticks(g, factor, n) == g
    decreases n
  {
    if n > 0 {
      assert Tick(g, factor) == g;
      TicksAtTarget(g, factor, n - 1);
    }
  }

  /** Convergence within a bounded number of frames: with a shrink factor in
      (0, 1], every frame that does not snap closes the gap by at least the
      factor, so a gap below 1 + n * factor is closed exactly within n + 1 frames. */
  lemma {:induction false} AnimationConverges(g: Geometry, factor: real, n: nat)
    requires 0.0 < factor <= 1.0
    requires Abs(g.target - g.current) < 1.0 + (n as real) * factor
    ensures Ticks(g, factor, n + 1).current == g.target
    ensures !Ticks(g, factor, n + 1).animating
    decreases n
  {
    var g1 := Tick(g, factor);
    if Abs(g.target - g.current) < 1.0 {
      TicksAtTarget(g1, factor, n);
    } else {
      assert n > 0;
      assert Abs(g1.target - g1.current) < 1.0 + ((n - 1) as real) * factor;
      AnimationConverges(g1, factor, n - 1);
    }
  }

  // ---------------------------------------------------------------------------
  // The window

  /** The textual and history state the window keeps besides its geometry. */
  datatype TextState = TextState(
    isExpanded: bool, history: seq<HistoryEntry>, lastZh: string, lastIsFinal: bool,
    isClosing: bool, hasEverHadHistory: bool, rows: seq<RowView>,
    chineseLabel: string, sourceLabel: string, englishLabel: string, autoTogglePending: bool)

  /** Archiving is decided on a line change: the previous line was final, or the
      new line does not start with the previous one's first three characters
      and is shorter than it. */
  predicate IsNewRecord(lastZh: string, lastIsFinal: bool, zh: string) {
    lastIsFinal || (!StartsWith(zh, lastZh[..if |lastZh| < 3 then |lastZh| else 3]) && |zh| < |lastZh|)
  }

  /** All conditions under which update_translation archives the previous line. */
  predicate Archives(lastZh: string, lastIsFinal: bool, zh: string) {
    lastZh != "" && !StartsWith(zh, "[Err") && IsNewRecord(lastZh, lastIsFinal, zh)
    && CleanText(lastZh) != ""
  }

  /** The placeholders the English and Chinese labels show until the first update. */
  const WaitingEnglish: string := "Waiting for speech..."
  const WaitingChinese: string := "等待语音输入..."

  class OverlayWindow {
    const cfg: UiConfig

    var isExpanded: bool
    var history: seq<HistoryEntry>
    var lastZh: string
    var lastIsFinal: bool
    var isClosing: bool
    var hasEverHadHistory: bool

    var targetHeight: real
    var currentHeight: real
    var animating: bool
    var shrinkJob: Option<ShrinkJob>
    var pendingShrinkHeight: Option<real>

    /** Label texts: the history rows, the translation, its source and the live English line. */
    var rows: seq<RowView>
    var chineseLabel: string
    var sourceLabel: string
    var englishLabel: string

    /** The `after(100, toggle_history)` scheduled on the first archive. */
    var autoTogglePending: bool

    function Geom(): Geometry reads this {
      Geometry(currentHeight, targetHeight, animating, shrinkJob, pendingShrinkHeight)
    }

    function Text(): TextState reads this {
      TextState(isExpanded, history, lastZh, lastIsFinal, isClosing, hasEverHadHistory, rows,
                chineseLabel, sourceLabel, englishLabel, autoTogglePending)
    }

    /** The window's invariant: the history is within capacity, the window is
        expanded only with history, the auto-expand flag records exactly whether
        history ever existed (history never empties again), the rows show the
        history, the shrink slot is coherent, and the window is settled: when
        no animation frame is pending it is at its target height. */
    ghost predicate Valid() reads this {
      |history| <= Capacity(cfg.historyCount)
      && (isExpanded ==> history != [])
      && (hasEverHadHistory <==> history != [])
      && (autoTogglePending ==> hasEverHadHistory)
      && rows == RenderRows(history, cfg.historyCount)
      && GeomValid(Geom()) && Settled(Geom())
    }

    /** __init__: collapsed, no history, the placeholder texts on the English and
        Chinese labels, a 10-unit window with target 0, then one update_height,
        which grows the window and so leaves it settled. */
    constructor (config: UiConfig, layout: Layout)
      ensures Valid() && cfg == config
      ensures Text() == TextState(false, [], "", false, false, false,
                                  RenderRows([], config.historyCount),
                                  WaitingChinese, "", WaitingEnglish, false)
      ensures Geom() == Resize(Geometry(10.0, 0.0, false, None, None),
                               FinalHeight(layout, false, config.minHeight), false, config)
    {
      cfg := config;
      isExpanded, history, lastZh, lastIsFinal := false, [], "", false;
      isClosing, hasEverHadHistory := false, false;
      targetHeight, currentHeight, animating := 0.0, 10.0, false;
      shrinkJob, pendingShrinkHeight := None, None;
      rows := RenderRows([], config.historyCount);
      chineseLabel, sourceLabel, englishLabel := WaitingChinese, "", WaitingEnglish;
      autoTogglePending := false;
      new;
      FinalHeightBounds(layout, false, config.minHeight);
      UpdateHeight(layout, false);
    }

    /** _animate_loop, one frame. */
    method AnimateTick()
      requires GeomValid(Geom())
      modifies this
      ensures GeomValid(Geom()) && Text() == old(Text())
      ensures Geom() == if old(isClosing) then old(Geom()) else Tick(old(Geom()), cfg.shrinkFactor)
    {
      if isClosing { return; }
      var diff := targetHeight - currentHeight;
      if Abs(diff) < 1.0 {
        currentHeight := targetHeight;
        animating := false;
        return;
      }
      var step: real;
      if diff > 0.0 {
        step := diff * 0.4;
        if step < 1.0 { step := 1.0; }
      } else {
        step := diff * cfg.shrinkFactor;
        if step < -2.0 { step := -2.0; }
      }
      currentHeight := currentHeight + step;
      animating := true;
    }

    /** update_height(immediate), with the widgets' required heights as input. */
    method UpdateHeight(layout: Layout, immediate: bool)
      requires GeomValid(Geom())
      modifies this
      ensures GeomValid(Geom()) && Text() == old(Text())
      ensures Geom() == if old(isClosing) then old(Geom())
                        else Resize(old(Geom()), FinalHeight(layout, isExpanded, cfg.minHeight),
                                    immediate, cfg)
    {
      if isClosing { return; }
      var finalHeight := FinalHeight(layout, isExpanded, cfg.minHeight);
      if finalHeight > targetHeight || immediate {
        ApplyHeight(finalHeight, immediate);
      } else if finalHeight < targetHeight {
        DeferShrink(finalHeight);
      }
    }

    /** The growth-or-immediate branch of update_height. */
    method ApplyHeight(finalHeight: real, immediate: bool)
      requires GeomValid(Geom()) && !isClosing && (finalHeight > targetHeight || immediate)
      modifies this
      ensures GeomValid(Geom()) && Text() == old(Text())
      ensures Geom() == Resize(old(Geom()), finalHeight, immediate, cfg)
    {
      shrinkJob := None;
      if immediate && finalHeight < targetHeight {
        animating := false;
        targetHeight := finalHeight;
        currentHeight := finalHeight;
        return;
      }
      targetHeight := finalHeight;
      if !animating {
        AnimateTick();
      }
    }

    /** The shrink branch of update_height: keep a pending job for a nearly
        equal height, otherwise replace it with one for this height. */
    method DeferShrink(finalHeight: real)
      requires GeomValid(Geom()) && !isClosing && finalHeight < targetHeight
      modifies this
      ensures GeomValid(Geom()) && Text() == old(Text())
      ensures Geom() == Resize(old(Geom()), finalHeight, false, cfg)
    {
      if shrinkJob.Some? && pendingShrinkHeight.Some? {
        if Abs(finalHeight - pendingShrinkHeight.value) < 2.0 {
          return;
        }
      }
      pendingShrinkHeight := Some(finalHeight);
      var gap := targetHeight - finalHeight;
      var delaySec := if gap > 100.0 then 1.0 else cfg.shrinkDelay;
      shrinkJob := Some(ShrinkJob(finalHeight, Trunc(delaySec * 1000.0)));
    }

    /** _execute_shrink(h). */
    method ExecuteShrink(h: real)
      requires GeomValid(Geom())
      modifies this
      ensures GeomValid(Geom()) && Text() == old(Text())
      ensures Geom() == if old(isClosing) then old(Geom()) else Commit(old(Geom()), h, cfg.shrinkFactor)
    {
      if isClosing { return; }
      shrinkJob := None;
      if h < targetHeight {
        targetHeight := h;
        if !animating {
          AnimateTick();
        }
      }
    }

    /** The pending shrink timer fires and runs _execute_shrink with its own height. */
    method FireShrinkJob()
      requires GeomValid(Geom()) && shrinkJob.Some?
      modifies this
      ensures GeomValid(Geom()) && Text() == old(Text())
      ensures !old(isClosing) ==> shrinkJob == None && targetHeight == old(shrinkJob.value.height)
      ensures Geom() == if old(isClosing) then old(Geom())
                        else Commit(old(Geom()), old(shrinkJob.value.height), cfg.shrinkFactor)
    {
      FiredJobCommits(Geom(), cfg.shrinkFactor);
      ExecuteShrink(shrinkJob.value.height);
    }

    /** toggle_history: ignored without history; otherwise flips the expanded
        state and re-measures immediately. */
    method ToggleHistory(layout: Layout)
      requires GeomValid(Geom())
      modifies this
      ensures GeomValid(Geom())
      ensures old(isClosing) || old(history) == [] ==> Text() == old(Text()) && Geom() == old(Geom())
      ensures !old(isClosing) && old(history) != [] ==>
                Text() == old(Text()).(isExpanded := !old(isExpanded))
                && Geom() == Resize(old(Geom()), FinalHeight(layout, isExpanded, cfg.minHeight), true, cfg)
    {
      if isClosing { return; }
      if history == [] { return; }
      isExpanded := !isExpanded;
      UpdateHeight(layout, true);
    }

    /** The automatic toggle scheduled by the first archive fires. */
    method FireAutoToggle(layout: Layout)
      requires Valid() && autoTogglePending
      modifies this
      ensures Valid()
      ensures Text() == old(Text()).(autoTogglePending := false,
                                     isExpanded := if old(isClosing) then old(isExpanded) else !old(isExpanded))
      ensures Geom() == if old(isClosing) then old(Geom())
                        else Resize(old(Geom()), FinalHeight(layout, isExpanded, cfg.minHeight), true, cfg)
    {
      autoTogglePending := false;
      ToggleHistory(layout);
    }

    /** _update_history_view, run right after an archive: the first time there is
        history it records that and, when collapsed, schedules the automatic
        toggle; without history and expanded it would collapse, but
        toggle_history ignores that call; then the rows show the history. */
    method UpdateHistoryView(layout: Layout)
      requires GeomValid(Geom())
      modifies this
      ensures GeomValid(Geom()) && Geom() == old(Geom())
      ensures old(isClosing) ==> Text() == old(Text())
      ensures !old(isClosing) ==>
                Text() == old(Text()).(
                  hasEverHadHistory := old(hasEverHadHistory) || history != [],
                  autoTogglePending := old(autoTogglePending)
                                       || (!old(hasEverHadHistory) && history != [] && !isExpanded),
                  rows := RenderRows(history, cfg.historyCount))
    {
      if isClosing { return; }
      var hasHistory := history != [];
      if hasHistory {
        if !hasEverHadHistory {
          hasEverHadHistory := true;
          if !isExpanded {
            autoTogglePending := true;
          }
        }
      } else {
        if isExpanded {
          ToggleHistory(layout);
        }
      }
      rows := RenderRows(history, cfg.historyCount);
    }

    /** The archive branch of update_translation: append, evict the oldest
        entry past capacity, refresh the history view. */
    method ArchiveLine(entry: HistoryEntry, layout: Layout)
      requires Valid() && !isClosing
      modifies this
      ensures Valid() && Geom() == old(Geom())
      ensures Text() == old(Text()).(
                history := Archive(old(history), entry, cfg.historyCount),
                hasEverHadHistory := history != [],
                autoTogglePending := old(autoTogglePending) || (!old(hasEverHadHistory) && history != []),
                rows := RenderRows(history, cfg.historyCount))
    {
      history := history + [entry];
      if |history| > cfg.historyCount {
        history := history[1..];
      }
      UpdateHistoryView(layout);
    }

    /** update_translation up to its final update_height: archive the previous
        line when one was decided on, then show the new line and remember it. */
    method ShowTranslation(zhText: string, enText: string, isFinal: bool,
                           archived: Option<HistoryEntry>, layout: Layout)
      requires Valid() && !isClosing
      modifies this
      ensures Valid() && Geom() == old(Geom())
      ensures Text() == old(Text()).(
                history := if archived.Some? then Archive(old(history), archived.value, cfg.historyCount)
                           else old(history),
                hasEverHadHistory := history != [],
                autoTogglePending := old(autoTogglePending) || (!old(hasEverHadHistory) && history != []),
                rows := RenderRows(history, cfg.historyCount),
                lastZh := zhText, lastIsFinal := isFinal, chineseLabel := zhText, sourceLabel := enText)
    {
      if archived.Some? {
        ArchiveLine(archived.value, layout);
      }
      ShowLine(zhText, enText, isFinal);
    }

    /** The new line goes on the labels and becomes the last line seen. */
    method ShowLine(zhText: string, enText: string, isFinal: bool)
      requires Valid()
      modifies this
      ensures Valid() && Geom() == old(Geom())
      ensures Text() == old(Text()).(lastZh := zhText, lastIsFinal := isFinal,
                                     chineseLabel := zhText, sourceLabel := enText)
    {
      chineseLabel := zhText;
      sourceLabel := enText;
      lastZh := zhText;
      lastIsFinal := isFinal;
    }

    /** update_translation(zh_text, en_text, is_final), with the archive
        timestamp `now` given as its "%H:%M:%S" text. The previous line is
        archived, under its clean text, exactly when `Archives` holds. */
    method UpdateTranslation(zhText: string, enText: string, isFinal: bool, now: string, layout: Layout)
      requires Valid()
      modifies this
      ensures Valid()
      ensures old(isClosing) ==> Text() == old(Text()) && Geom() == old(Geom())
      ensures !old(isClosing) ==>
                history == (if Archives(old(lastZh), old(lastIsFinal), zhText)
                            then Archive(old(history), HistoryEntry(CleanText(old(lastZh)), now), cfg.historyCount)
                            else old(history))
      ensures !old(isClosing) ==>
                lastZh == zhText && lastIsFinal == isFinal
                && chineseLabel == zhText && sourceLabel == enText
                && englishLabel == old(englishLabel) && isExpanded == old(isExpanded) && !isClosing
      ensures !old(isClosing) ==>
                autoTogglePending == (old(autoTogglePending) || (!old(hasEverHadHistory) && history != []))
      ensures !old(isClosing) ==>
                Geom() == Resize(old(Geom()), FinalHeight(layout, isExpanded, cfg.minHeight), false, cfg)
    {
      if isClosing { return; }
      var archived: Option<HistoryEntry> := None;
      if lastZh != "" && !StartsWith(zhText, "[Err") {
        var isNewRecord := lastIsFinal
          || (!StartsWith(zhText, lastZh[..if |lastZh| < 3 then |lastZh| else 3]) && |zhText| < |lastZh|);
        if isNewRecord {
          var cleanText := CleanText(lastZh);
          if cleanText != "" {
            archived := Some(HistoryEntry(cleanText, now));
          }
        }
      }
      ShowTranslation(zhText, enText, isFinal, archived, layout);
      UpdateHeight(layout, false);
    }

    /** update_english. */
    method UpdateEnglish(text: string, layout: Layout)
      requires Valid()
      modifies this
      ensures Valid()
      ensures old(isClosing) ==> Text() == old(Text()) && Geom() == old(Geom())
      ensures !old(isClosing) ==>
                Text() == old(Text()).(englishLabel := text)
                && Geom() == Resize(old(Geom()), FinalHeight(layout, isExpanded, cfg.minHeight), false, cfg)
    {
      if isClosing { return; }
      englishLabel := text;
      UpdateHeight(layout, false);
    }

    /** update_chinese. */
    method UpdateChinese(text: string, layout: Layout)
      requires Valid()
      modifies this
      ensures Valid()
      ensures old(isClosing) ==> Text() == old(Text()) && Geom() == old(Geom())
      ensures !old(isClosing) ==>
                Text() == old(Text()).(chineseLabel := text)
                && Geom() == Resize(old(Geom()), FinalHeight(layout, isExpanded, cfg.minHeight), false, cfg)
    {
      if isClosing { return; }
      chineseLabel := text;
      UpdateHeight(layout, false);
    }

    /** quit: from here on every operation leaves the window as it is. */
    method Quit()
      requires Valid()
      modifies this
      ensures Valid() && isClosing
      ensures Text() == old(Text()).(isClosing := true) && Geom() == old(Geom())
    {
      if isClosing { return; }
      isClosing := true;
    }
  }
}
