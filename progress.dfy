/**
 * The transfer progress reporter: a reader/writer that counts the bytes it
 * sees, decides when to redraw the progress bar, and enters a final
 * "completed" state when the bar is drawn at 100%.
 *
 * The pure part (`Meter`, `Update`, `Observe`, `Feed`) is the reference
 * definition, for two rules of computing the percentage: `AsWritten`, the
 * uncapped percentage of the code, and `Capped`, the same percentage held at
 * 100. The class `ProgressReader` follows the code and is proved to agree
 * with `AsWritten`.
 */
module Progress {
  import opened Wrappers
  import opened GoInt

  /** The narrowest terminal the bar assumes. */
  const MinTerminalWidth: int := 20
  /** The width used when the terminal size cannot be detected. */
  const FallbackWidth: int := 50
  /** Columns kept free for the percentage, byte counts, speed and ETA. */
  const ReservedColumns: int := 58
  /** The narrowest bar drawn. */
  const MinBarWidth: int := 10
  /** Redraw whenever the percentage has grown by at least this much. */
  const PrintPercent: int := 1

  /** getTerminalWidth: the detected width, at least 20; 50 when detection fails. */
  function TerminalWidth(detected: Option<int>): (w: int)
    ensures w >= MinTerminalWidth
    ensures detected.None? ==> w == FallbackWidth
    ensures detected.Some? ==> w >= detected.value && (w == detected.value || w == MinTerminalWidth)
  {
    match detected
    case None => FallbackWidth
    case Some(width) => if width < MinTerminalWidth then MinTerminalWidth else width
  }

  /** The bar's width: what is left of the terminal, but never below 10. */
  function BarWidth(terminalWidth: int): (r: int)
    ensures r >= MinBarWidth && r >= terminalWidth - ReservedColumns
    ensures r == MinBarWidth || r == terminalWidth - ReservedColumns
  {
    if terminalWidth - ReservedColumns < MinBarWidth then MinBarWidth else terminalWidth - ReservedColumns
  }

  /** How a bar of a given width is drawn: `filled` '=' then `empty` blanks. */
  datatype Geometry = Geometry(filled: int, empty: int)

  /** The percentage exactly as the reader computes it: it exceeds 100 once more bytes than declared pass. */
  function RawPercent(bytesRead: int, total: int): (p: int)
    requires total > 0 && bytesRead >= 0
    ensures p >= 0
    ensures p * total <= bytesRead * 100 < (p + 1) * total
  {
    bytesRead * 100 / total
  }

  /** The bar geometry exactly as drawn: nothing bounds `filled` by the width. */
  function RawBar(barWidth: int, percent: int): (g: Geometry)
    requires barWidth >= 0 && percent >= 0
    ensures g.filled + g.empty == barWidth
    ensures g.filled * 100 <= barWidth * percent < (g.filled + 1) * 100
  {
    var filled := barWidth * percent / 100;
    Geometry(filled, barWidth - filled)
  }

  /**
   * The bar needs a negative number of blanks, which makes `strings.Repeat`
   * panic, exactly when the percentage passes 100 by at least one column's
   * worth of the bar.
   */
  lemma RawBarOverflows(barWidth: int, percent: int)
    requires barWidth >= 0 && percent >= 0
    ensures RawBar(barWidth, percent).empty < 0 <==> barWidth * (percent - 100) >= 100
  {
    var g := RawBar(barWidth, percent);
    assert barWidth * (percent - 100) == barWidth * percent - barWidth * 100;
    if g.empty < 0 {
      assert g.filled * 100 >= (barWidth + 1) * 100;
    } else {
      assert (g.filled + 1) * 100 <= (barWidth + 1) * 100;
    }
  }

  /** For a percentage in [0, 100] the bar always fits its width. */
  lemma BarFits(barWidth: int, percent: int)
    requires barWidth >= 0 && 0 <= percent <= 100
    ensures 0 <= RawBar(barWidth, percent).filled <= barWidth
    ensures 0 <= RawBar(barWidth, percent).empty
  {
    RawBarOverflows(barWidth, percent);
    assert barWidth * percent <= barWidth * 100;
  }

  /** The percentage held at 100 once all declared bytes have passed. */
  function Percent(bytesRead: int, total: int): (p: int)
    requires total > 0 && bytesRead >= 0
    ensures 0 <= p <= 100
    ensures p == 100 <==> bytesRead >= total
    ensures p < 100 ==> p * total <= bytesRead * 100 < (p + 1) * total
  {
    var raw := RawPercent(bytesRead, total);
    RawPercentReachesHundred(bytesRead, total);
    if raw > 100 then 100 else raw
  }

  /** The raw percentage reaches 100 exactly when all declared bytes have passed. */
  lemma RawPercentReachesHundred(bytesRead: int, total: int)
    requires total > 0 && bytesRead >= 0
    ensures RawPercent(bytesRead, total) >= 100 <==> bytesRead >= total
  {
    var raw := RawPercent(bytesRead, total);
    if bytesRead >= total {
      assert 100 * total <= bytesRead * 100 < (raw + 1) * total;
      MulCancel(100, raw + 1, total);
    } else {
      assert raw * total <= bytesRead * 100 < 100 * total;
      MulCancel(raw, 100, total);
    }
  }

  /** Both percentages never decrease as bytes are counted. */
  lemma PercentGrows(a: int, b: int, total: int)
    requires total > 0 && 0 <= a <= b
    ensures RawPercent(a, total) <= RawPercent(b, total)
    ensures Percent(a, total) <= Percent(b, total)
  {
    var pa, pb := RawPercent(a, total), RawPercent(b, total);
    assert pa * total < (pb + 1) * total;
    MulCancel(pa, pb + 1, total);
  }

  lemma MulCancel(x: int, y: int, t: int)
    requires t > 0 && x * t < y * t
    ensures x < y
  {
    assert t * (x - y) == x * t - y * t;
    MulSign(t, x - y);
  }

  /** How the shown percentage is computed: as the code does, or held at 100. */
  datatype Rule = AsWritten | Capped

  function Shown(rule: Rule, bytesRead: int, total: int): (p: int)
    requires total > 0 && bytesRead >= 0
    ensures p >= 0
    ensures rule.Capped? ==> p <= 100
  {
    match rule
    case AsWritten => RawPercent(bytesRead, total)
    case Capped => Percent(bytesRead, total)
  }

  /** The counters of a reader: declared size, bytes seen, last drawn percentage, completion. */
  datatype Meter = Meter(total: int, bytesRead: int, lastPrint: int, completed: bool)

  /** One redraw: the percentage, the byte counts shown and the bar's shape. */
  datatype Frame = Frame(percent: int, bytesRead: int, total: int, filled: int, empty: int)

  /**
   * The state after a call, the frames the call drew, and whether drawing
   * the bar panicked (a negative count handed to `strings.Repeat`).
   */
  datatype Step = Step(meter: Meter, frames: seq<Frame>, panicked: bool)

  /** One Read or Write: the buffer's length and what terminal detection reported during it. */
  datatype Chunk = Chunk(size: nat, detected: Option<int>)

  function Start(total: int): Meter {
    Meter(total, 0, 0, false)
  }

  /**
   * The invariant of a reader: the last drawn percentage never runs ahead
   * of the bytes seen, completion means the bar was drawn at 100, and a
   * percentage of exactly 100 means completion.
   */
  predicate MeterValid(rule: Rule, m: Meter) {
    m.total > 0 && m.bytesRead >= 0 &&
    0 <= m.lastPrint <= Shown(rule, m.bytesRead, m.total) &&
    (m.completed <==> m.lastPrint == 100) &&
    (Shown(rule, m.bytesRead, m.total) == 100 ==> m.completed)
  }

  lemma StartValid(rule: Rule, total: int)
    requires total > 0
    ensures MeterValid(rule, Start(total))
  {
  }

  /**
   * updateProgress: redraw when the percentage grew by PrintPercent or is
   * 100; a bar that needs negative blanks panics before anything is drawn;
   * otherwise the frame is drawn, completion set at 100, and the percentage
   * remembered.
   */
  function Update(rule: Rule, m: Meter, detected: Option<int>): (s: Step)
    requires m.total > 0 && m.bytesRead >= 0
    ensures s.meter.total == m.total && s.meter.bytesRead == m.bytesRead
    ensures |s.frames| <= 1 && !(s.panicked && s.frames != [])
  {
    var p := Shown(rule, m.bytesRead, m.total);
    if p >= m.lastPrint + PrintPercent || p == 100 then
      var g := RawBar(BarWidth(TerminalWidth(detected)), p);
      if g.empty < 0 then Step(m, [], true)
      else
        Step(Meter(m.total, m.bytesRead, p, if p == 100 then true else m.completed),
             [Frame(p, m.bytesRead, m.total, g.filled, g.empty)], false)
    else
      Step(m, [], false)
  }

  /** Read or Write of `c.size` bytes: ignored once completed, otherwise counted and followed by an update. */
  function Observe(rule: Rule, m: Meter, c: Chunk): (s: Step)
    requires m.total > 0 && m.bytesRead >= 0
    ensures s.meter.total == m.total && s.meter.bytesRead >= m.bytesRead
    ensures |s.frames| <= 1
  {
    if m.completed then Step(m, [], false)
    else Update(rule, m.(bytesRead := m.bytesRead + c.size), c.detected)
  }

  /** A sequence of calls, one after another, ending at the first panic. */
  function Feed(rule: Rule, m: Meter, cs: seq<Chunk>): (s: Step)
    requires m.total > 0 && m.bytesRead >= 0
    ensures s.meter.total == m.total && s.meter.bytesRead >= m.bytesRead
    decreases |cs|
  {
    if cs == [] then Step(m, [], false)
    else
      var first := Observe(rule, m, cs[0]);
      if first.panicked then first
      else
        var rest := Feed(rule, first.meter, cs[1..]);
        Step(rest.meter, first.frames + rest.frames, rest.panicked)
  }

  function Sum(cs: seq<Chunk>): nat {
    if cs == [] then 0 else cs[0].size + Sum(cs[1..])
  }

  /**
   * For a reader that has not completed, a redraw is due exactly when the
   * percentage passed the last drawn one. A due redraw panics exactly when
   * the bar would need negative blanks; otherwise it draws that frame,
   * records the percentage, and completes exactly at 100.
   */
  lemma UpdateRenders(rule: Rule, m: Meter, detected: Option<int>)
    requires m.total > 0 && m.bytesRead >= 0 && !m.completed
    requires 0 <= m.lastPrint <= Shown(rule, m.bytesRead, m.total) && m.lastPrint != 100
    ensures var s := Update(rule, m, detected);
      var p := Shown(rule, m.bytesRead, m.total);
      var g := RawBar(BarWidth(TerminalWidth(detected)), p);
      (s.panicked <==> p > m.lastPrint && g.empty < 0) &&
      (|s.frames| == 1 <==> p > m.lastPrint && g.empty >= 0) &&
      (|s.frames| == 1 ==> s.frames[0] == Frame(p, m.bytesRead, m.total, g.filled, g.empty) &&
                           s.meter == m.(lastPrint := p, completed := p == 100)) &&
      (|s.frames| == 0 ==> s.meter == m) &&
      (s.meter.completed <==> |s.frames| == 1 && p == 100)
  {
  }

  /** Every call keeps the reader's invariant, under either rule. */
  lemma ObserveValid(rule: Rule, m: Meter, c: Chunk)
    requires MeterValid(rule, m)
    ensures MeterValid(rule, Observe(rule, m, c).meter)
  {
    if !m.completed {
      PercentGrows(m.bytesRead, m.bytesRead + c.size, m.total);
      var m1 := m.(bytesRead := m.bytesRead + c.size);
      var p := Shown(rule, m1.bytesRead, m1.total);
      var g := RawBar(BarWidth(TerminalWidth(c.detected)), p);
      if p >= m.lastPrint + PrintPercent || p == 100 {
        if g.empty < 0 {
          RawBarOverflows(BarWidth(TerminalWidth(c.detected)), p);
        }
      }
    }
  }

  lemma {:induction false} FeedValid(rule: Rule, m: Meter, cs: seq<Chunk>)
    requires MeterValid(rule, m)
    ensures MeterValid(rule, Feed(rule, m, cs).meter)
    decreases |cs|
  {
    if cs != [] {
      ObserveValid(rule, m, cs[0]);
      if !Observe(rule, m, cs[0]).panicked {
        FeedValid(rule, Observe(rule, m, cs[0]).meter, cs[1..]);
      }
    }
  }

  /** Once completed, further calls change nothing and draw nothing. */
  lemma {:induction false} CompletedIsFinal(rule: Rule, m: Meter, cs: seq<Chunk>)
    requires m.total > 0 && m.bytesRead >= 0 && m.completed
    ensures Feed(rule, m, cs) == Step(m, [], false)
    decreases |cs|
  {
    if cs != [] {
      CompletedIsFinal(rule, m, cs[1..]);
    }
  }

  /** Before completion and without a panic every byte is counted. */
  lemma {:induction false} FeedCounts(rule: Rule, m: Meter, cs: seq<Chunk>)
    requires m.total > 0 && m.bytesRead >= 0
    requires !Feed(rule, m, cs).meter.completed && !Feed(rule, m, cs).panicked
    ensures Feed(rule, m, cs).meter.bytesRead == m.bytesRead + Sum(cs)
    decreases |cs|
  {
    if cs != [] {
      var first := Observe(rule, m, cs[0]);
      if first.meter.completed {
        CompletedIsFinal(rule, first.meter, cs[1..]);
      } else {
        FeedCounts(rule, first.meter, cs[1..]);
      }
    }
  }

  /**
   * Under either rule the reader completes exactly when it draws a frame
   * at 100% (or had already completed).
   */
  lemma {:induction false} CompletesOnFrameAtHundred(rule: Rule, m: Meter, cs: seq<Chunk>)
    requires MeterValid(rule, m)
    ensures Feed(rule, m, cs).meter.completed <==>
      m.completed || exists f :: f in Feed(rule, m, cs).frames && f.percent == 100
    decreases |cs|
  {
    if cs != [] {
      var first := Observe(rule, m, cs[0]);
      if !m.completed {
        PercentGrows(m.bytesRead, m.bytesRead + cs[0].size, m.total);
        UpdateRenders(rule, m.(bytesRead := m.bytesRead + cs[0].size), cs[0].detected);
      }
      if !first.panicked {
        ObserveValid(rule, m, cs[0]);
        CompletesOnFrameAtHundred(rule, first.meter, cs[1..]);
        var rest := Feed(rule, first.meter, cs[1..]);
        assert Feed(rule, m, cs).frames == first.frames + rest.frames;
      }
    }
  }

  /** Every frame drawn shows at least the percentage the reader started from. */
  lemma {:induction false} FramesAtLeast(rule: Rule, m: Meter, cs: seq<Chunk>)
    requires m.total > 0 && m.bytesRead >= 0
    ensures forall f :: f in Feed(rule, m, cs).frames ==> f.percent >= Shown(rule, m.bytesRead, m.total)
    decreases |cs|
  {
    if cs != [] {
      var first := Observe(rule, m, cs[0]);
      PercentGrows(m.bytesRead, first.meter.bytesRead, m.total);
      if !first.panicked {
        FramesAtLeast(rule, first.meter, cs[1..]);
      }
    }
  }

  /**
   * As written: a reader whose percentage has passed 100 without completing
   * never completes, whatever follows, and so never reports EOF.
   */
  lemma StuckPastHundred(m: Meter, cs: seq<Chunk>)
    requires MeterValid(AsWritten, m) && !m.completed && RawPercent(m.bytesRead, m.total) > 100
    ensures !Feed(AsWritten, m, cs).meter.completed
  {
    CompletesOnFrameAtHundred(AsWritten, m, cs);
    FramesAtLeast(AsWritten, m, cs);
  }

  /**
   * As written, a stream declared as 100 bytes that delivers 99 + 2 passes
   * from 99% straight to 101%: the frame at 100 is never drawn and the reader
   * never completes, while the capped rule completes on the same calls.
   */
  lemma MissedCompletion()
    ensures Feed(AsWritten, Start(100), [Chunk(99, None), Chunk(2, None)]) ==
      Step(Meter(100, 101, 101, false), [Frame(99, 99, 100, 9, 1), Frame(101, 101, 100, 10, 0)], false)
    ensures Feed(Capped, Start(100), [Chunk(99, None), Chunk(2, None)]).meter.completed
    ensures forall cs :: !Feed(AsWritten, Meter(100, 101, 101, false), cs).meter.completed
  {
    var cs := [Chunk(99, None), Chunk(2, None)];
    var first := Observe(AsWritten, Start(100), cs[0]);
    assert first == Step(Meter(100, 99, 99, false), [Frame(99, 99, 100, 9, 1)], false);
    var second := Observe(AsWritten, first.meter, cs[1]);
    assert second == Step(Meter(100, 101, 101, false), [Frame(101, 101, 100, 10, 0)], false);
    assert cs[1..][1..] == [];
    var capped := Observe(Capped, Observe(Capped, Start(100), cs[0]).meter, cs[1]);
    assert capped.meter.completed;
    forall rest {
      StuckPastHundred(Meter(100, 101, 101, false), rest);
    }
  }

  /** As written, a stream declared as 10 bytes that delivers 6 + 6 reaches 120% and panics drawing the bar. */
  lemma OverlongStreamOverflows()
    ensures RawPercent(6, 10) == 60 && RawPercent(12, 10) == 120
    ensures RawBar(BarWidth(FallbackWidth), RawPercent(12, 10)).empty == -2
    ensures Feed(AsWritten, Start(10), [Chunk(6, None), Chunk(6, None)]).panicked
  {
  }

  /** With the capped rule the bar never panics and every frame shows at most 100%. */
  lemma {:induction false} CappedNeverPanics(m: Meter, cs: seq<Chunk>)
    requires m.total > 0 && m.bytesRead >= 0
    ensures !Feed(Capped, m, cs).panicked
    ensures forall f :: f in Feed(Capped, m, cs).frames ==> f.percent <= 100
    decreases |cs|
  {
    if cs != [] {
      var first := Observe(Capped, m, cs[0]);
      if !m.completed {
        var m1 := m.(bytesRead := m.bytesRead + cs[0].size);
        BarFits(BarWidth(TerminalWidth(cs[0].detected)), Shown(Capped, m1.bytesRead, m1.total));
      }
      CappedNeverPanics(first.meter, cs[1..]);
    }
  }

  /** With the capped rule the reader has completed exactly when all declared bytes have passed. */
  lemma {:induction false} FeedCompletes(m: Meter, cs: seq<Chunk>)
    requires MeterValid(Capped, m)
    ensures Feed(Capped, m, cs).meter.completed <==> Feed(Capped, m, cs).meter.bytesRead >= m.total
    ensures m.bytesRead + Sum(cs) >= m.total ==> Feed(Capped, m, cs).meter.completed
  {
    FeedValid(Capped, m, cs);
    CappedNeverPanics(m, cs);
    if !Feed(Capped, m, cs).meter.completed {
      FeedCounts(Capped, m, cs);
    }
  }

  /**
   * As written the reader completes only once all declared bytes have
   * passed; one that has seen them all without completing shows more than
   * 100%.
   */
  lemma FeedCompletesOnlyAtHundred(m: Meter, cs: seq<Chunk>)
    requires MeterValid(AsWritten, m)
    ensures var s := Feed(AsWritten, m, cs);
      (s.meter.completed ==> s.meter.bytesRead >= m.total) &&
      (!s.meter.completed && s.meter.bytesRead >= m.total ==> RawPercent(s.meter.bytesRead, m.total) > 100)
  {
    FeedValid(AsWritten, m, cs);
    var s := Feed(AsWritten, m, cs);
    RawPercentReachesHundred(s.meter.bytesRead, m.total);
  }

  /** Frames drawn strictly above `floor` with strictly increasing percentages. */
  predicate Ascending(fs: seq<Frame>, floor: int) {
    (forall i :: 0 <= i < |fs| ==> floor < fs[i].percent) &&
    (forall i, j :: 0 <= i < j < |fs| ==> fs[i].percent < fs[j].percent)
  }

  /** One call draws at most one frame, above the last drawn percentage, and remembers it. */
  lemma ObserveAscending(rule: Rule, m: Meter, c: Chunk)
    requires MeterValid(rule, m)
    ensures var s := Observe(rule, m, c);
      Ascending(s.frames, m.lastPrint) &&
      (s.frames == [] ==> s.meter.lastPrint == m.lastPrint) &&
      (s.frames != [] ==> s.meter.lastPrint == s.frames[0].percent)
  {
    if !m.completed {
      var m1 := m.(bytesRead := m.bytesRead + c.size);
      PercentGrows(m.bytesRead, m1.bytesRead, m.total);
      UpdateRenders(rule, m1, c.detected);
    }
  }

  lemma AscendingConcat(a: seq<Frame>, b: seq<Frame>, floor: int, mid: int)
    requires Ascending(a, floor) && Ascending(b, mid) && floor <= mid
    requires a != [] ==> a[|a| - 1].percent <= mid
    ensures Ascending(a + b, floor)
  {
    var fs := a + b;
    forall i, j | 0 <= i < j < |fs|
      ensures fs[i].percent < fs[j].percent
    {
      if j >= |a| {
        assert fs[j] == b[j - |a|];
        if i >= |a| {
          assert fs[i] == b[i - |a|];
        } else {
          assert fs[i].percent <= a[|a| - 1].percent;
        }
      }
    }
    forall i | 0 <= i < |fs|
      ensures floor < fs[i].percent
    {
      if i >= |a| {
        assert fs[i] == b[i - |a|];
      }
    }
  }

  /**
   * Under either rule the drawn percentages strictly increase and stay
   * above the starting point; the reader remembers the last one drawn.
   */
  lemma {:induction false} FeedAscending(rule: Rule, m: Meter, cs: seq<Chunk>)
    requires MeterValid(rule, m)
    ensures Ascending(Feed(rule, m, cs).frames, m.lastPrint)
    ensures Feed(rule, m, cs).frames == [] ==> Feed(rule, m, cs).meter.lastPrint == m.lastPrint
    ensures Feed(rule, m, cs).frames != [] ==>
      Feed(rule, m, cs).meter.lastPrint == Feed(rule, m, cs).frames[|Feed(rule, m, cs).frames| - 1].percent
    decreases |cs|
  {
    if cs != [] {
      var first := Observe(rule, m, cs[0]);
      ObserveValid(rule, m, cs[0]);
      ObserveAscending(rule, m, cs[0]);
      if !first.panicked {
        FeedAscending(rule, first.meter, cs[1..]);
        var rest := Feed(rule, first.meter, cs[1..]);
        assert first.meter.lastPrint >= m.lastPrint;
        AscendingConcat(first.frames, rest.frames, m.lastPrint, first.meter.lastPrint);
        var whole := Feed(rule, m, cs);
        assert whole.frames == first.frames + rest.frames && whole.meter == rest.meter;
        if rest.frames == [] {
          assert whole.frames == first.frames;
        } else {
          LastOfConcat(first.frames, rest.frames);
        }
      }
    }
  }

  lemma LastOfConcat<T>(a: seq<T>, b: seq<T>)
    requires b != []
    ensures (a + b)[|a + b| - 1] == b[|b| - 1]
  {
  }

  /**
   * Every frame actually drawn fits: filled and blank parts are
   * non-negative and add up to at least 10 columns.
   */
  lemma {:induction false} FeedDrawable(rule: Rule, m: Meter, cs: seq<Chunk>)
    requires m.total > 0 && m.bytesRead >= 0
    ensures forall f :: f in Feed(rule, m, cs).frames ==>
      0 <= f.filled && 0 <= f.empty && f.filled + f.empty >= MinBarWidth && f.total == m.total
    decreases |cs|
  {
    if cs != [] {
      var first := Observe(rule, m, cs[0]);
      ObserveDrawable(rule, m, cs[0]);
      if !first.panicked {
        FeedDrawable(rule, first.meter, cs[1..]);
        assert Feed(rule, m, cs).frames == first.frames + Feed(rule, first.meter, cs[1..]).frames;
      }
    }
  }

  lemma ObserveDrawable(rule: Rule, m: Meter, c: Chunk)
    requires m.total > 0 && m.bytesRead >= 0
    ensures forall f :: f in Observe(rule, m, c).frames ==>
      0 <= f.filled && 0 <= f.empty && f.filled + f.empty >= MinBarWidth && f.total == m.total
  {
  }

  /** The reader handed to uploads and downloads, as written: the percentage is not capped. */
  class ProgressReader {
    const totalSize: int
    var bytesRead: int
    var lastPrint: int
    var completed: bool
    /** Every frame drawn so far, oldest first. */
    var frames: seq<Frame>

    function State(): Meter
      reads this
    {
      Meter(totalSize, bytesRead, lastPrint, completed)
    }

    ghost predicate Valid()
      reads this
    {
      MeterValid(AsWritten, State())
    }

    /** newProgressReader; the size must be positive, see the notes on empty transfers. */
    constructor (totalSize: int64)
      requires totalSize > 0
      ensures State() == Start(totalSize) && frames == []
      ensures Valid()
    {
      this.totalSize := totalSize;
      bytesRead, lastPrint, completed := 0, 0, false;
      frames := [];
    }

    /**
     * Read of a buffer of `n` bytes: (0, EOF) once completed, otherwise
     * (n, nil) after counting; `panicked` reports that drawing the bar
     * panicked instead of returning.
     */
    method Read(n: nat, detected: Option<int>) returns (count: nat, eof: bool, panicked: bool)
      requires Valid()
      modifies this
      ensures Valid()
      ensures State() == Observe(AsWritten, old(State()), Chunk(n, detected)).meter
      ensures frames == old(frames) + Observe(AsWritten, old(State()), Chunk(n, detected)).frames
      ensures panicked == Observe(AsWritten, old(State()), Chunk(n, detected)).panicked
      ensures eof == old(completed)
      ensures count == if old(completed) then 0 else n
    {
      ObserveValid(AsWritten, State(), Chunk(n, detected));
      if completed {
        return 0, true, false;
      }
      bytesRead := bytesRead + n;
      panicked := UpdateProgress(detected);
      return n, false, panicked;
    }

    /** Write behaves exactly like Read: (0, EOF) once completed, otherwise (n, nil). */
    method Write(n: nat, detected: Option<int>) returns (count: nat, eof: bool, panicked: bool)
      requires Valid()
      modifies this
      ensures Valid()
      ensures State() == Observe(AsWritten, old(State()), Chunk(n, detected)).meter
      ensures frames == old(frames) + Observe(AsWritten, old(State()), Chunk(n, detected)).frames
      ensures panicked == Observe(AsWritten, old(State()), Chunk(n, detected)).panicked
      ensures eof == old(completed)
      ensures count == if old(completed) then 0 else n
    {
      count, eof, panicked := Read(n, detected);
    }

    /** updateProgress; `panicked` is true when the bar needs negative blanks, and then nothing changes. */
    method UpdateProgress(detected: Option<int>) returns (panicked: bool)
      requires totalSize > 0 && bytesRead >= 0
      modifies this
      ensures State() == Update(AsWritten, old(State()), detected).meter
      ensures frames == old(frames) + Update(AsWritten, old(State()), detected).frames
      ensures panicked == Update(AsWritten, old(State()), detected).panicked
    {
      panicked := false;
      var percent := RawPercent(bytesRead, totalSize);
      if percent >= lastPrint + PrintPercent || percent == 100 {
        var g := RawBar(BarWidth(TerminalWidth(detected)), percent);
        if g.empty < 0 {
          return true;
        }
        frames := frames + [Frame(percent, bytesRead, totalSize, g.filled, g.empty)];
        if percent == 100 {
          completed := true;
        }
        lastPrint := percent;
      }
    }
  }
}
