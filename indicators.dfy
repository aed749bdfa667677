/**
 * Indicators over one stock's daily bars (trading_packages/equities_universe.py):
 * the trailing rolling maximum, the average true range and the entry signal.
 *
 * A date is a position in the shared trading calendar. Python's `iloc` slicing
 * (negative positions count from the end, bounds are clamped) is modelled
 * exactly by `PyIndex`, and pandas' label alignment in `atr` is modelled by
 * intersecting the label ranges of the aligned slices.
 */
module Indicators {
  import opened Wrappers

  type Ticker = string

  /** One daily OHLCV row. */
  datatype Bar = Bar(open: real, high: real, low: real, close: real, volume: real)

  /** A stock: its ticker and one bar per calendar day. */
  datatype Stock = Stock(ticker: Ticker, bars: seq<Bar>)

  /** The two columns `rolling_means` can be asked for. */
  datatype MeanType = MaxPc | MaxVol

  function Highs(bars: seq<Bar>): (r: seq<real>)
    ensures |r| == |bars| && forall i :: 0 <= i < |bars| ==> r[i] == bars[i].high
  {
    seq(|bars|, i requires 0 <= i < |bars| => bars[i].high)
  }

  function Volumes(bars: seq<Bar>): (r: seq<real>)
    ensures |r| == |bars| && forall i :: 0 <= i < |bars| ==> r[i] == bars[i].volume
  {
    seq(|bars|, i requires 0 <= i < |bars| => bars[i].volume)
  }

  function Max(a: real, b: real): real { if a >= b then a else b }

  function Abs(a: real): real { if a >= 0.0 then a else -a }

  /** Largest element of a non-empty sequence. */
  function MaxOf(s: seq<real>): (m: real)
    requires |s| > 0
    ensures forall i :: 0 <= i < |s| ==> s[i] <= m
    ensures exists i :: 0 <= i < |s| && s[i] == m
  {
    if |s| == 1 then s[0]
    else
      var m' := MaxOf(s[..|s| - 1]);
      assert forall i :: 0 <= i < |s| - 1 ==> s[..|s| - 1][i] == s[i];
      Max(m', s[|s| - 1])
  }

  /** Where a (start or stop) bound of a Python slice lands in a sequence of length `len`. */
  function PyIndex(i: int, len: nat): (r: nat)
    ensures r <= len
    ensures 0 <= i <= len ==> r == i
  {
    if i < 0 then (if len + i < 0 then 0 else len + i)
    else if i > len then len
    else i
  }

  /** `xs.iloc[start:stop]`. */
  function PySlice(xs: seq<real>, start: int, stop: int): seq<real>
  {
    var lo, hi := PyIndex(start, |xs|), PyIndex(stop, |xs|);
    if lo < hi then xs[lo..hi] else []
  }

  function Column(s: Stock, mt: MeanType): seq<real>
  {
    match mt
    case MaxPc => Highs(s.bars)
    case MaxVol => Volumes(s.bars)
  }

  /**
   * `rolling_means(mean_type, data_ind, window)`: the last value of a
   * `rolling(window).max()` over `iloc[data_ind - (window - 1) : data_ind + 1]`.
   * An empty slice makes `[-1]` raise; a slice shorter than `window` (or a window
   * below one) gives NaN. Both are `None`.
   */
  function RollingMeans(s: Stock, mt: MeanType, dataInd: int, window: int): Option<real>
  {
    var w := PySlice(Column(s, mt), dataInd - (window - 1), dataInd + 1);
    if |w| == 0 then None
    else if window < 1 || |w| < window then None
    else Some(MaxOf(w[|w| - window..]))
  }

  /**
   * For every position the signal can ask about (data_ind - 1 >= -1), the
   * rolling maximum exists exactly when all `window` bars ending at `dataInd`
   * exist, and it is their maximum.
   */
  lemma RollingMeansWindow(s: Stock, mt: MeanType, dataInd: int, window: int)
    requires -1 <= dataInd
    ensures RollingMeans(s, mt, dataInd, window).Some? <==>
            1 <= window && window - 1 <= dataInd < |s.bars|
    ensures RollingMeans(s, mt, dataInd, window).Some? ==>
            RollingMeans(s, mt, dataInd, window).value ==
            MaxOf(Column(s, mt)[dataInd - window + 1..dataInd + 1])
  {
    var xs := Column(s, mt);
    var len := |xs|;
    assert len == |s.bars|;
    var lo, hi := PyIndex(dataInd - (window - 1), len), PyIndex(dataInd + 1, len);
    var w := PySlice(xs, dataInd - (window - 1), dataInd + 1);
    if 1 <= window && window - 1 <= dataInd < len {
      assert lo == dataInd - window + 1 && hi == dataInd + 1;
      assert |w| == window;
      assert w[|w| - window..] == w;
    } else if window >= 1 && dataInd - (window - 1) < 0 {
      assert |w| < window;
    } else if window >= 1 {
      assert dataInd >= len;
      assert hi == len;
      assert |w| < window;
    }
  }

  /** The true range of one row: max(high - low, |high - c|, |low - c|). */
  function TrueRange(high: real, low: real, c: real): (r: real)
    ensures r >= high - low && r >= 0.0
  {
    Max(Max(high - low, Abs(high - c)), Abs(low - c))
  }

  /**
   * Sum of the true range over the rows at positions lo .. hi-1. After pandas
   * aligns `high - prev_close` by date label, each row pairs a bar's high and
   * low with that same bar's close.
   */
  function SumTrueRange(bars: seq<Bar>, lo: int, hi: int): (r: real)
    requires 0 <= lo <= hi <= |bars|
    ensures r >= 0.0
    ensures r >= SumFullRange(bars, lo, hi)
    decreases hi - lo
  {
    if lo == hi then 0.0
    else SumTrueRange(bars, lo, hi - 1) + TrueRange(bars[hi - 1].high, bars[hi - 1].low, bars[hi - 1].close)
  }

  /** Sum of high - low over the rows at positions lo .. hi-1. */
  function SumFullRange(bars: seq<Bar>, lo: int, hi: int): real
    requires 0 <= lo <= hi <= |bars|
    decreases hi - lo
  {
    if lo == hi then 0.0 else SumFullRange(bars, lo, hi - 1) + (bars[hi - 1].high - bars[hi - 1].low)
  }

  /**
   * `atr(data_date, window)`. `high` and `low` are `iloc[s : p + 1]` and
   * `prev_close` is `iloc[s - 1 : p]` with `s = p - (window - 1)`; subtracting
   * the series aligns them by date, so only the labels present in both survive
   * `dropna`, and the ATR is the mean of their true ranges. No surviving row
   * makes `[-1]` raise (`None`); an unknown date makes `get_loc` raise (`None`).
   */
  function Atr(s: Stock, p: int, window: int): Option<real>
  {
    if !(0 <= p < |s.bars|) then None
    else
      var len := |s.bars|;
      var start := p - (window - 1);
      var loHigh, hiHigh := PyIndex(start, len), PyIndex(p + 1, len);
      var loClose, hiClose := PyIndex(start - 1, len), PyIndex(p, len);
      var lo := if loHigh >= loClose then loHigh else loClose;
      var hi := if hiHigh <= hiClose then hiHigh else hiClose;
      if lo < hi then Some(SumTrueRange(s.bars, lo, hi) / (hi - lo) as real) else None
  }

  /**
   * With at least `window` earlier bars, the ATR is the mean true range of the
   * `window - 1` bars p-window+1 .. p-1: the bar at p itself is dropped. A
   * window of one (or less) leaves no row and fails.
   */
  lemma AtrWindow(s: Stock, p: int, window: int)
    requires window <= p < |s.bars|
    ensures window <= 1 ==> Atr(s, p, window) == None
    ensures 2 <= window ==>
            Atr(s, p, window) == Some(SumTrueRange(s.bars, p - window + 1, p) / (window - 1) as real)
  {
  }

  /** Dividing by a positive count keeps both bounds of a sum. */
  lemma MeanBounds(sum: real, lower: real, n: real)
    requires n > 0.0 && sum >= lower && sum >= 0.0
    ensures sum / n >= lower / n && sum / n >= 0.0
  {
    assert sum / n - lower / n == (sum - lower) / n;
  }

  /** A defined ATR is never negative and is at least the mean high - low of its rows. */
  lemma AtrNonNegative(s: Stock, p: int, window: int)
    requires 2 <= window <= p < |s.bars|
    ensures Atr(s, p, window).Some?
    ensures Atr(s, p, window).value >= 0.0
    ensures Atr(s, p, window).value >= SumFullRange(s.bars, p - window + 1, p) / (window - 1) as real
  {
    AtrWindow(s, p, window);
    MeanBounds(SumTrueRange(s.bars, p - window + 1, p), SumFullRange(s.bars, p - window + 1, p), (window - 1) as real);
  }

  lemma {:induction false} SumTrueRangeAgree(b1: seq<Bar>, b2: seq<Bar>, lo: int, hi: int)
    requires 0 <= lo <= hi <= |b1| && hi <= |b2|
    requires b1[lo..hi] == b2[lo..hi]
    ensures SumTrueRange(b1, lo, hi) == SumTrueRange(b2, lo, hi)
    decreases hi - lo
  {
    if lo < hi {
      assert b1[hi - 1] == b1[lo..hi][hi - 1 - lo] == b2[hi - 1];
      assert b1[lo..hi - 1] == b1[lo..hi][..hi - 1 - lo];
      assert b2[lo..hi - 1] == b2[lo..hi][..hi - 1 - lo];
      SumTrueRangeAgree(b1, b2, lo, hi - 1);
    }
  }

  /**
   * The ATR at p depends only on the bars p-window+1 .. p-1: neither the bar at
   * p nor any later bar affects it.
   */
  lemma AtrDependsOnlyOnEarlierBars(s1: Stock, s2: Stock, p: int, window: int)
    requires 2 <= window <= p && p < |s1.bars| && p < |s2.bars|
    requires s1.bars[p - window + 1..p] == s2.bars[p - window + 1..p]
    ensures Atr(s1, p, window) == Atr(s2, p, window)
  {
    AtrWindow(s1, p, window);
    AtrWindow(s2, p, window);
    SumTrueRangeAgree(s1.bars, s2.bars, p - window + 1, p);
  }

  /** The price breakout: today's high is at least 99% of the trailing maximum high. */
  predicate Breakout(high: real, maxHigh: real) { high >= 0.99 * maxHigh }

  /** The volume confirmation: today's volume exceeds 99% of `volumeMargin` times the trailing maximum volume. */
  predicate VolumeConfirms(volume: real, volumeMargin: real, maxVolume: real)
  {
    volume > 0.99 * (volumeMargin * maxVolume)
  }

  /**
   * `signal(data_date, window, volume_margin)`: a breakout on high and a volume
   * confirmation against the trailing window that ends the day BEFORE
   * `dataDate`. Every failure (unknown date, short history) is `false`.
   */
  function Signal(s: Stock, dataDate: int, window: int, volumeMargin: real): (good: bool)
    ensures good ==> 0 <= dataDate < |s.bars|
  {
    if !(0 <= dataDate < |s.bars|) then false
    else
      var maxPc := RollingMeans(s, MaxPc, dataDate - 1, window);
      var maxVolume := RollingMeans(s, MaxVol, dataDate - 1, window);
      && maxPc.Some? && maxVolume.Some?
      && Breakout(s.bars[dataDate].high, maxPc.value)
      && VolumeConfirms(s.bars[dataDate].volume, volumeMargin, maxVolume.value)
  }

  /**
   * The signal holds exactly when the `window` bars before `dataDate` exist and
   * `dataDate`'s high and volume beat their maxima; `dataDate` itself is not in
   * the window.
   */
  lemma SignalWindow(s: Stock, dataDate: int, window: int, volumeMargin: real)
    ensures Signal(s, dataDate, window, volumeMargin) <==>
      && 1 <= window <= dataDate < |s.bars|
      && Breakout(s.bars[dataDate].high, MaxOf(Highs(s.bars)[dataDate - window..dataDate]))
      && VolumeConfirms(s.bars[dataDate].volume, volumeMargin, MaxOf(Volumes(s.bars)[dataDate - window..dataDate]))
  {
    if 0 <= dataDate < |s.bars| {
      RollingMeansWindow(s, MaxPc, dataDate - 1, window);
      RollingMeansWindow(s, MaxVol, dataDate - 1, window);
    }
  }

  lemma ColumnsAgree(b1: seq<Bar>, b2: seq<Bar>, lo: int, hi: int)
    requires 0 <= lo <= hi <= |b1| && hi <= |b2|
    requires forall i :: lo <= i < hi ==> b1[i] == b2[i]
    ensures Highs(b1)[lo..hi] == Highs(b2)[lo..hi]
    ensures Volumes(b1)[lo..hi] == Volumes(b2)[lo..hi]
  {
    assert forall i :: 0 <= i < hi - lo ==> Highs(b1)[lo..hi][i] == b1[lo + i].high == Highs(b2)[lo..hi][i];
    assert forall i :: 0 <= i < hi - lo ==> Volumes(b1)[lo..hi][i] == b1[lo + i].volume == Volumes(b2)[lo..hi][i];
  }

  /** The signal on day d reads no bar after d: truncating the series after d changes nothing. */
  lemma SignalNoLookAhead(s: Stock, d: int, window: int, volumeMargin: real)
    requires 0 <= d < |s.bars|
    ensures Signal(s, d, window, volumeMargin) == Signal(Stock(s.ticker, s.bars[..d + 1]), d, window, volumeMargin)
  {
    var cut := Stock(s.ticker, s.bars[..d + 1]);
    SignalWindow(s, d, window, volumeMargin);
    SignalWindow(cut, d, window, volumeMargin);
    if 1 <= window <= d {
      ColumnsAgree(s.bars, cut.bars, d - window, d);
    }
  }

  /** A signal over a window of w1 days leaves enough history for an ATR over any window 2 <= w2 <= w1. */
  lemma SignalGivesAtrHistory(s: Stock, d: int, w1: int, w2: int, volumeMargin: real)
    requires Signal(s, d, w1, volumeMargin) && 2 <= w2 <= w1
    ensures Atr(s, d, w2).Some?
  {
    SignalWindow(s, d, w1, volumeMargin);
    AtrWindow(s, d, w2);
  }
}
