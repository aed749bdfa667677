/**
 * One trading day of the backtest in tradecompanion.py, as a function of the
 * state before it: phase 1 opens new positions before the market opens,
 * phase 2 closes or marks every open position, and an equity row is written.
 * `Engine.TradingEngine` executes the same day step by step on objects.
 */
module Backtest {
  import opened Wrappers
  import opened Indicators
  import opened Ledger

  /** The run's configuration. */
  const RiskPerTrade: real := 0.01
  const RiskRatio: real := 5.0
  const CashRatio: real := 0.01
  const StopMargin: real := 3.0
  const SignalDays: int := 40
  const AtrDays: int := 20
  const VolumeMargin: real := 1.5
  const InitialCash: real := 4000.0

  /** A signalled ticker and its volume on the previous day. */
  datatype Candidate = Candidate(ticker: Ticker, volume: real)

  /** One row of the equity curve. */
  datatype EquityRow = EquityRow(cash: real, market: real, total: real)

  /** The whole state the daily loop carries: the portfolio's values, `my_log` and the equity curve. */
  datatype Book = Book(cash: real, market: real, total: real, log: seq<PositionRecord>, curve: seq<EquityRow>)

  /** What phase 1 produces: the positions it opened, in order, and the cash left. */
  datatype Opening = Opening(positions: seq<PositionRecord>, cash: real)

  /** No ticker occurs twice. */
  predicate Distinct(xs: seq<Ticker>)
  {
    forall i, j :: 0 <= i < j < |xs| ==> Apart(xs, i, j)
  }

  /** Entries i and j differ (named, so that a proof unfolds `Distinct` only for the pairs it mentions). */
  predicate Apart(xs: seq<Ticker>, i: int, j: int)
    requires 0 <= i < |xs| && 0 <= j < |xs|
  {
    xs[i] != xs[j]
  }

  /** Each ticker maps to its own stock and every stock has one bar per calendar day. */
  ghost predicate UniverseOk(equities: map<Ticker, Stock>, universe: seq<Ticker>, days: nat)
  {
    && Distinct(universe)
    && (forall x :: x in equities <==> x in universe)
    && (forall x :: x in equities ==> equities[x].ticker == x && |equities[x].bars| == days)
  }

  function Tickers(log: seq<PositionRecord>): (r: seq<Ticker>)
    ensures |r| == |log| && forall j :: 0 <= j < |log| ==> r[j] == log[j].ticker
  {
    seq(|log|, j requires 0 <= j < |log| => log[j].ticker)
  }

  /** Every logged ticker names a stock of the universe. */
  predicate LogKnown(log: seq<PositionRecord>, equities: map<Ticker, Stock>)
  {
    forall j :: 0 <= j < |log| ==> log[j].ticker in equities
  }

  // ---------------------------------------------------------------- phase 1

  /**
   * Lines 60-65: the stocks, in universe order, whose signal on the previous
   * day `p` holds and whose ticker was never logged, with that day's volume.
   */
  function Candidates(equities: map<Ticker, Stock>, universe: seq<Ticker>, logged: seq<Ticker>, p: int): (cs: seq<Candidate>)
    requires forall x :: x in universe ==> x in equities && equities[x].ticker == x
    decreases |universe|
  {
    if universe == [] then []
    else
      var stock := equities[universe[|universe| - 1]];
      Candidates(equities, universe[..|universe| - 1], logged, p) + CandidateOf(stock, logged, p)
  }

  /** Lines 63-64 for one stock: its candidate on day p, if it signals and was never logged. */
  function CandidateOf(stock: Stock, logged: seq<Ticker>, p: int): (e: seq<Candidate>)
    ensures |e| <= 1
    ensures e != [] <==> Signal(stock, p, SignalDays, VolumeMargin) && stock.ticker !in logged
    ensures e != [] ==> e == [Candidate(stock.ticker, stock.bars[p].volume)]
  {
    if Signal(stock, p, SignalDays, VolumeMargin) && stock.ticker !in logged
    then [Candidate(stock.ticker, stock.bars[p].volume)] else []
  }

  /**
   * A candidate is exactly a universe stock that signals on day p and was
   * never logged, with its volume that day.
   */
  lemma {:induction false} CandidatesMembers(equities: map<Ticker, Stock>, universe: seq<Ticker>, logged: seq<Ticker>, p: int)
    requires forall x :: x in universe ==> x in equities && equities[x].ticker == x
    ensures var cs := Candidates(equities, universe, logged, p);
      forall c :: c in cs <==>
        && c.ticker in universe && c.ticker !in logged
        && Signal(equities[c.ticker], p, SignalDays, VolumeMargin)
        && c.volume == equities[c.ticker].bars[p].volume
    decreases |universe|
  {
    if universe != [] {
      var front, last := universe[..|universe| - 1], universe[|universe| - 1];
      assert universe == front + [last];
      CandidatesMembers(equities, front, logged, p);
    }
  }

  /** Every candidate's ticker is an unlogged ticker of the universe whose stock signals on day p. */
  lemma {:induction false} CandidatesTickers(equities: map<Ticker, Stock>, universe: seq<Ticker>, logged: seq<Ticker>, p: int)
    requires forall x :: x in universe ==> x in equities && equities[x].ticker == x
    ensures forall c :: c in Candidates(equities, universe, logged, p) ==>
      c.ticker in universe && c.ticker !in logged && Signal(equities[c.ticker], p, SignalDays, VolumeMargin)
    decreases |universe|
  {
    if universe != [] {
      var front, last := universe[..|universe| - 1], universe[|universe| - 1];
      assert universe == front + [last];
      CandidatesTickers(equities, front, logged, p);
    }
  }

  /** A universe without repeated tickers gives candidates without repeated tickers. */
  lemma {:induction false} CandidatesDistinct(equities: map<Ticker, Stock>, universe: seq<Ticker>, logged: seq<Ticker>, p: int)
    requires forall x :: x in universe ==> x in equities && equities[x].ticker == x
    requires Distinct(universe)
    ensures DistinctCandidates(Candidates(equities, universe, logged, p))
    decreases |universe|
  {
    if universe != [] {
      var front, last := universe[..|universe| - 1], universe[|universe| - 1];
      assert universe == front + [last];
      assert Distinct(front) by {
        forall i, j | 0 <= i < j < |front| ensures Apart(front, i, j) {
          assert Apart(universe, i, j);
          assert front[i] == universe[i] && front[j] == universe[j];
        }
      }
      assert last !in front by {
        forall i | 0 <= i < |front| ensures front[i] != last {
          assert Apart(universe, i, |front|);
          assert front[i] == universe[i];
        }
      }
      CandidatesDistinct(equities, front, logged, p);
      CandidatesWithin(equities, front, logged, p);
      var e := CandidateOf(equities[last], logged, p);
      AppendDistinct(Candidates(equities, front, logged, p), e, front, last);
    }
  }

  /** Every candidate's ticker is a ticker of the universe. */
  lemma {:induction false} CandidatesWithin(equities: map<Ticker, Stock>, universe: seq<Ticker>, logged: seq<Ticker>, p: int)
    requires forall x :: x in universe ==> x in equities && equities[x].ticker == x
    ensures forall c :: c in Candidates(equities, universe, logged, p) ==> c.ticker in universe
    decreases |universe|
  {
    if universe != [] {
      var front, last := universe[..|universe| - 1], universe[|universe| - 1];
      assert universe == front + [last];
      CandidatesWithin(equities, front, logged, p);
      var e := CandidateOf(equities[last], logged, p);
      assert forall c :: c in e ==> c.ticker == last;
    }
  }

  /** Appending at most one candidate whose ticker is new keeps the tickers apart. */
  lemma AppendDistinct(cs: seq<Candidate>, e: seq<Candidate>, front: seq<Ticker>, last: Ticker)
    requires DistinctCandidates(cs) && forall c :: c in cs ==> c.ticker in front
    requires last !in front && |e| <= 1 && forall c :: c in e ==> c.ticker == last
    ensures DistinctCandidates(cs + e)
  {
    forall i, j | 0 <= i < j < |cs + e| ensures TickersApart(cs + e, i, j) {
      assert (cs + e)[i] == cs[i];
      if j < |cs| {
        assert TickersApart(cs, i, j);
      } else {
        assert cs[i] in cs;
        assert (cs + e)[j] in e;
      }
    }
  }

  /** Extending the universe by one stock adds that stock's candidate, if any, at the end. */
  lemma CandidatesExtend(equities: map<Ticker, Stock>, universe: seq<Ticker>, logged: seq<Ticker>, p: int, k: nat)
    requires forall x :: x in universe ==> x in equities && equities[x].ticker == x
    requires k < |universe|
    ensures var stock := equities[universe[k]];
      Candidates(equities, universe[..k + 1], logged, p)
        == Candidates(equities, universe[..k], logged, p) + CandidateOf(stock, logged, p)
  {
    assert universe[..k + 1][..k] == universe[..k];
    assert universe[..k + 1][k] == universe[k];
  }

  predicate NonIncreasing(cs: seq<Candidate>)
  {
    forall i, j :: 0 <= i < j < |cs| ==> cs[i].volume >= cs[j].volume
  }

  /** No two candidates share a ticker. */
  predicate DistinctCandidates(cs: seq<Candidate>)
  {
    forall i, j :: 0 <= i < j < |cs| ==> TickersApart(cs, i, j)
  }

  /** Candidates i and j have different tickers. */
  predicate TickersApart(cs: seq<Candidate>, i: int, j: int)
    requires 0 <= i < |cs| && 0 <= j < |cs|
  {
    cs[i].ticker != cs[j].ticker
  }

  /** Inserts `c` before the first entry whose volume it reaches. */
  function Insert(c: Candidate, s: seq<Candidate>): (r: seq<Candidate>)
    ensures |r| == |s| + 1
  {
    if s == [] then [c]
    else if c.volume >= s[0].volume then [c] + s
    else [s[0]] + Insert(c, s[1..])
  }

  /** `Insert(c, s)` holds the entries of `s` and `c`, each as often as before. */
  lemma {:induction false} InsertPermutes(c: Candidate, s: seq<Candidate>)
    ensures multiset(Insert(c, s)) == multiset(s) + multiset{c}
  {
    if s != [] && c.volume < s[0].volume {
      InsertPermutes(c, s[1..]);
      assert s == [s[0]] + s[1..];
    }
  }

  /** Every entry of `Insert(c, s)` is `c` or an entry of `s`. */
  lemma InsertMembers(c: Candidate, s: seq<Candidate>)
    ensures forall x :: x in Insert(c, s) ==> x == c || x in s
  {
    InsertPermutes(c, s);
    forall x | x in Insert(c, s) ensures x == c || x in s {
      assert x in multiset(Insert(c, s));
    }
  }

  /** Inserting into a sequence sorted by volume keeps it sorted. */
  lemma {:induction false} InsertSorted(c: Candidate, s: seq<Candidate>)
    requires NonIncreasing(s)
    ensures NonIncreasing(Insert(c, s))
  {
    if s != [] && c.volume < s[0].volume {
      var r' := Insert(c, s[1..]);
      InsertSorted(c, s[1..]);
      InsertMembers(c, s[1..]);
      assert Insert(c, s) == [s[0]] + r';
      forall x | x in r' ensures s[0].volume >= x.volume {
        if x != c {
          var k :| 0 <= k < |s[1..]| && s[1..][k] == x;
          assert s[k + 1] == x;
        }
      }
    }
  }

  /** Inserting a candidate with a new ticker keeps the tickers distinct. */
  lemma {:induction false} InsertDistinct(c: Candidate, s: seq<Candidate>)
    requires DistinctCandidates(s) && forall x :: x in s ==> x.ticker != c.ticker
    ensures DistinctCandidates(Insert(c, s))
  {
    if s != [] && c.volume < s[0].volume {
      var r' := Insert(c, s[1..]);
      DistinctTail(s);
      InsertDistinct(c, s[1..]);
      InsertMembers(c, s[1..]);
      assert Insert(c, s) == [s[0]] + r';
      forall x | x in r' ensures x.ticker != s[0].ticker {
        if x != c {
          var k :| 0 <= k < |s[1..]| && s[1..][k] == x;
          assert s[k + 1] == x;
          assert TickersApart(s, 0, k + 1);
        }
      }
      ConsDistinct(s[0], r');
    } else if s != [] {
      ConsDistinct(c, s);
    }
  }

  /** Dropping the first of distinct candidates leaves distinct candidates. */
  lemma DistinctTail(s: seq<Candidate>)
    requires s != [] && DistinctCandidates(s)
    ensures DistinctCandidates(s[1..])
  {
    forall i, j | 0 <= i < j < |s| - 1 ensures TickersApart(s[1..], i, j) {
      assert TickersApart(s, i + 1, j + 1);
      assert s[1..][i] == s[i + 1] && s[1..][j] == s[j + 1];
    }
  }

  /** A candidate whose ticker is new, put in front of distinct candidates, keeps them distinct. */
  lemma ConsDistinct(c: Candidate, s: seq<Candidate>)
    requires DistinctCandidates(s) && forall x :: x in s ==> x.ticker != c.ticker
    ensures DistinctCandidates([c] + s)
  {
    forall i, j | 0 <= i < j < |s| + 1 ensures TickersApart([c] + s, i, j) {
      assert ([c] + s)[j] == s[j - 1];
      if i == 0 {
        assert s[j - 1] in s;
      } else {
        assert ([c] + s)[i] == s[i - 1];
        assert TickersApart(s, i - 1, j - 1);
      }
    }
  }

  /**
   * Line 69: the candidates by volume, largest first. Ties keep universe
   * order (pandas' default quicksort leaves them unspecified).
   */
  function Ranked(cs: seq<Candidate>): (r: seq<Candidate>)
    ensures |r| == |cs|
  {
    if cs == [] then [] else Insert(cs[0], Ranked(cs[1..]))
  }

  /** The ranking is a permutation of the candidates. */
  lemma {:induction false} RankedPermutes(cs: seq<Candidate>)
    ensures multiset(Ranked(cs)) == multiset(cs) && forall c :: c in Ranked(cs) ==> c in cs
  {
    if cs != [] {
      RankedPermutes(cs[1..]);
      assert cs == [cs[0]] + cs[1..];
      InsertPermutes(cs[0], Ranked(cs[1..]));
      forall c | c in Ranked(cs) ensures c in cs {
        assert c in multiset(Ranked(cs));
      }
    }
  }

  /** The ranking is sorted by volume, largest first. */
  lemma {:induction false} RankedNonIncreasing(cs: seq<Candidate>)
    ensures NonIncreasing(Ranked(cs))
  {
    if cs != [] {
      RankedNonIncreasing(cs[1..]);
      InsertSorted(cs[0], Ranked(cs[1..]));
    }
  }

  /** The ranking keeps distinct tickers distinct. */
  lemma {:induction false} RankedDistinct(cs: seq<Candidate>)
    requires DistinctCandidates(cs)
    ensures DistinctCandidates(Ranked(cs))
  {
    if cs != [] {
      DistinctTail(cs);
      RankedDistinct(cs[1..]);
      RankedPermutes(cs[1..]);
      RankedDistinctStep(cs, Ranked(cs[1..]));
    }
  }

  /** The ranking is a permutation, sorted by volume, and keeps distinct tickers distinct. */
  lemma RankedSorted(cs: seq<Candidate>)
    ensures var r := Ranked(cs);
      && multiset(r) == multiset(cs)
      && NonIncreasing(r)
      && (DistinctCandidates(cs) ==> DistinctCandidates(r))
      && (forall c :: c in r ==> c in cs)
  {
    RankedPermutes(cs);
    RankedNonIncreasing(cs);
    if DistinctCandidates(cs) {
      RankedDistinct(cs);
    }
  }

  /** The step of `Ranked` that keeps tickers distinct. */
  lemma RankedDistinctStep(cs: seq<Candidate>, rest: seq<Candidate>)
    requires cs != [] && multiset(rest) == multiset(cs[1..])
    requires DistinctCandidates(cs) ==> DistinctCandidates(rest)
    ensures DistinctCandidates(cs) ==> DistinctCandidates(Insert(cs[0], rest))
  {
    if DistinctCandidates(cs) {
      forall x | x in rest ensures x.ticker != cs[0].ticker {
        assert x in multiset(cs[1..]);
        var k :| 0 <= k < |cs[1..]| && cs[1..][k] == x;
        assert cs[k + 1] == x;
        assert TickersApart(cs, 0, k + 1);
      }
      InsertDistinct(cs[0], rest);
    }
  }

  /** `risk` succeeds for this stock on day p: its ATR exists and `stop_margin * atr` is not zero. */
  predicate Sizable(s: Stock, p: int)
  {
    var a := Atr(s, p, AtrDays);
    a.Some? && StopMargin * a.value != 0.0
  }

  /** Every candidate can be looked up and has bars up to day t. */
  predicate Listed(cs: seq<Candidate>, equities: map<Ticker, Stock>, t: nat)
  {
    && 1 <= t
    && forall c :: c in cs ==> c.ticker in equities && t < |equities[c.ticker].bars|
  }

  /** Lines 73-76: the sizing from the previous close and ATR, under the previous total value. */
  function SizeFor(s: Stock, t: nat, total: real): Sizing
    requires 1 <= t < |s.bars| && Sizable(s, t - 1)
  {
    Risk(total, s.bars[t - 1].close, Atr(s, t - 1, AtrDays).value, RiskPerTrade, RiskRatio, StopMargin)
  }

  /** Lines 79-83: the new position, at today's open. */
  function OpenFor(ticker: Ticker, s: Stock, t: nat, total: real): PositionRecord
    requires 1 <= t < |s.bars| && Sizable(s, t - 1)
  {
    var z := SizeFor(s, t, total);
    Opened(ticker, z.sharesToBuy, t, t, s.bars[t].open, z.stopPrice, z.targetPrice)
  }

  /**
   * What the scan needs to know about one candidate: the position it would
   * open and the amount the cash check subtracts (shares at the previous
   * close, without the fee).
   */
  datatype Quote = Quote(pos: PositionRecord, checkCost: real)

  /**
   * Lines 73-83 for one candidate, before the cash check: `None` when `atr`
   * or `risk` raises for it (no ATR on day t - 1, or `stop_margin * atr` zero).
   */
  function QuoteFor(c: Candidate, equities: map<Ticker, Stock>, t: nat, total: real): (q: Option<Quote>)
    requires 1 <= t && c.ticker in equities && t < |equities[c.ticker].bars|
    ensures q.Some? <==> Sizable(equities[c.ticker], t - 1)
    ensures q.Some? ==> q.value.pos.ticker == c.ticker && q.value.pos.status == Open && q.value.pos.openDate == t
  {
    var s := equities[c.ticker];
    if Sizable(s, t - 1) then
      Some(Quote(OpenFor(c.ticker, s, t, total), SizeFor(s, t, total).sharesToBuy as real * s.bars[t - 1].close))
    else None
  }

  /**
   * The two amounts of a quote: the cash check subtracts the shares at the
   * previous close and no fee, while the debit is the shares at today's open
   * plus the fee; the stop and target come from the previous close and ATR,
   * and with a positive ATR they lie on either side of the previous close.
   */
  lemma QuoteCosts(c: Candidate, equities: map<Ticker, Stock>, t: nat, total: real)
    requires 1 <= t && c.ticker in equities && t < |equities[c.ticker].bars|
    requires Sizable(equities[c.ticker], t - 1)
    ensures var s := equities[c.ticker]; var q := QuoteFor(c, equities, t, total).value;
      var prev := s.bars[t - 1].close;
      && q.pos.nbShares == SizeFor(s, t, total).sharesToBuy
      && q.pos.openPrice == s.bars[t].open
      && q.checkCost == q.pos.nbShares as real * prev
      && q.pos.totalCost == q.pos.nbShares as real * s.bars[t].open + Fee
      && q.pos.totalCost - q.checkCost == q.pos.nbShares as real * (s.bars[t].open - prev) + Fee
      && prev - q.pos.stopLoss == StopMargin * Atr(s, t - 1, AtrDays).value
      && q.pos.targetPrice - prev == RiskRatio * (prev - q.pos.stopLoss)
      && (Atr(s, t - 1, AtrDays).value > 0.0 ==> q.pos.stopLoss < prev < q.pos.targetPrice)
  {
    var s := equities[c.ticker];
    var a := Atr(s, t - 1, AtrDays).value;
    if a > 0.0 {
      MulPositive(StopMargin, a);
      MulPositive(RiskRatio, StopMargin * a);
    }
  }

  /** The quotes of the ranked candidates, in rank order. */
  function Quotes(cs: seq<Candidate>, equities: map<Ticker, Stock>, t: nat, total: real): (qs: seq<Option<Quote>>)
    requires Listed(cs, equities, t)
    ensures |qs| == |cs|
  {
    if cs == [] then []
    else
      assert cs[0] in cs && forall c :: c in cs[1..] ==> c in cs;
      [QuoteFor(cs[0], equities, t, total)] + Quotes(cs[1..], equities, t, total)
  }

  /** The j-th quote is the j-th candidate's. */
  lemma {:induction false} QuotesAt(cs: seq<Candidate>, equities: map<Ticker, Stock>, t: nat, total: real, j: nat)
    requires Listed(cs, equities, t) && j < |cs|
    ensures cs[j] in cs && Quotes(cs, equities, t, total)[j] == QuoteFor(cs[j], equities, t, total)
  {
    assert cs[j] in cs;
    if j > 0 {
      assert forall c :: c in cs[1..] ==> c in cs;
      QuotesAt(cs[1..], equities, t, total, j - 1);
      assert cs[1..][j - 1] == cs[j];
    }
  }

  /**
   * The test `amount / total > cash_ratio` of lines 58 and 77-78, with the
   * division cleared by the sign of the total; `AboveRatio` shows it is the
   * same test.
   */
  predicate Above(amount: real, total: real)
    requires total != 0.0
  {
    if total > 0.0 then amount > CashRatio * total else amount < CashRatio * total
  }

  /** Clearing the division changes nothing: `Above` is the ratio test itself. */
  lemma AboveRatio(amount: real, total: real)
    requires total != 0.0
    ensures Above(amount, total) <==> amount / total > CashRatio
  {
    assert amount == (amount / total) * total;
    if total > 0.0 {
      assert amount / total > CashRatio <==> (amount / total) * total > CashRatio * total;
    } else {
      assert amount / total > CashRatio <==> (amount / total) * total < CashRatio * total;
    }
  }

  /** Lines 77-78: the cash check, with the cash left so far and the previous total value. */
  predicate Accepts(q: Quote, cash: real, total: real)
    requires total != 0.0
  {
    Above(cash - q.checkCost, total)
  }

  /** Sum of the `total_cost` of some positions. */
  function TotalCost(log: seq<PositionRecord>): real
  {
    if log == [] then 0.0 else log[0].totalCost + TotalCost(log[1..])
  }

  /** Debiting one more position adds its cost to the total. */
  lemma {:induction false} TotalCostAppend(ps: seq<PositionRecord>, p: PositionRecord)
    ensures TotalCost(ps + [p]) == TotalCost(ps) + p.totalCost
  {
    if ps != [] {
      assert (ps + [p])[1..] == ps[1..] + [p];
      TotalCostAppend(ps[1..], p);
    } else {
      assert ([p])[1..] == [];
    }
  }

  /**
   * Lines 72-86: walk the quotes in rank order. A candidate `risk` cannot
   * size makes the script raise (`None`); one that passes the cash check is
   * opened and its `total_cost` debited; the first that fails ends the walk,
   * and no candidate after it is sized.
   */
  function Scan(qs: seq<Option<Quote>>, cash: real, total: real): (r: Option<Opening>)
    requires total != 0.0
    ensures r.Some? ==> |r.value.positions| <= |qs|
  {
    if qs == [] then Some(Opening([], cash))
    else if qs[0].None? then None
    else if !Accepts(qs[0].value, cash, total) then Some(Opening([], cash))
    else
      var rest := Scan(qs[1..], cash - qs[0].value.pos.totalCost, total);
      if rest.None? then None
      else
        Some(Opening([qs[0].value.pos] + rest.value.positions, rest.value.cash))
  }

  /** The cash a scan leaves is the cash it started with less the `total_cost` of what it opened. */
  lemma {:induction false} ScanCash(qs: seq<Option<Quote>>, cash: real, total: real)
    requires total != 0.0
    ensures var r := Scan(qs, cash, total); r.Some? ==> r.value.cash == cash - TotalCost(r.value.positions)
  {
    if qs != [] && qs[0].Some? && Accepts(qs[0].value, cash, total) {
      var p := qs[0].value.pos;
      ScanCash(qs[1..], cash - p.totalCost, total);
      var r := Scan(qs, cash, total);
      if r.Some? {
        var rest := Scan(qs[1..], cash - p.totalCost, total).value;
        assert r.value.positions == [p] + rest.positions;
        assert ([p] + rest.positions)[1..] == rest.positions;
      }
    }
  }

  /** A scan result with the positions `ps` opened before it. */
  function Then(ps: seq<PositionRecord>, r: Option<Opening>): Option<Opening>
  {
    if r.None? then None else Some(Opening(ps + r.value.positions, r.value.cash))
  }

  /** Nothing opened first leaves the scan result as it is. */
  lemma ThenNil(r: Option<Opening>)
    ensures Then([], r) == r
  {
    if r.Some? {
      assert [] + r.value.positions == r.value.positions;
    }
  }

  /** Opening `a` and then `b` first is opening `a + b` first. */
  lemma ThenThen(a: seq<PositionRecord>, b: seq<PositionRecord>, r: Option<Opening>)
    ensures Then(a, Then(b, r)) == Then(a + b, r)
  {
    if r.Some? {
      assert a + (b + r.value.positions) == (a + b) + r.value.positions;
    }
  }

  /**
   * One step of the walk from quote k: an unsizable quote raises, a quote
   * that fails the cash check ends the walk with nothing more opened, and an
   * accepted one is opened before the walk goes on from k + 1 with its cost
   * debited.
   */
  lemma ScanFrom(qs: seq<Option<Quote>>, k: nat, cash: real, total: real)
    requires total != 0.0 && k < |qs|
    ensures qs[k].None? ==> Scan(qs[k..], cash, total) == None
    ensures qs[k].Some? && !Accepts(qs[k].value, cash, total) ==> Scan(qs[k..], cash, total) == Some(Opening([], cash))
    ensures qs[k].Some? && Accepts(qs[k].value, cash, total) ==>
      Scan(qs[k..], cash, total) == Then([qs[k].value.pos], Scan(qs[k + 1..], cash - qs[k].value.pos.totalCost, total))
  {
    assert qs[k..][0] == qs[k] && qs[k..][1..] == qs[k + 1..];
  }

  /**
   * The walk of lines 72-86 one quote at a time: with `added` opened before
   * quote k and `cash` left, the whole scan raises at an unsizable quote k,
   * ends with `added` at one that fails the cash check, and otherwise goes on
   * from k + 1 with quote k's position opened and its cost debited.
   */
  lemma ScanWalk(qs: seq<Option<Quote>>, k: nat, cash0: real, cash: real, total: real, added: seq<PositionRecord>)
    requires total != 0.0 && k < |qs|
    requires Scan(qs, cash0, total) == Then(added, Scan(qs[k..], cash, total))
    ensures qs[k].None? ==> Scan(qs, cash0, total) == None
    ensures qs[k].Some? && !Accepts(qs[k].value, cash, total) ==> Scan(qs, cash0, total) == Some(Opening(added, cash))
    ensures qs[k].Some? && Accepts(qs[k].value, cash, total) ==>
      Scan(qs, cash0, total) == Then(added + [qs[k].value.pos], Scan(qs[k + 1..], cash - qs[k].value.pos.totalCost, total))
  {
    ScanFrom(qs, k, cash, total);
    if qs[k].Some? {
      ThenThen(added, [qs[k].value.pos], Scan(qs[k + 1..], cash - qs[k].value.pos.totalCost, total));
      assert added + [] == added;
    }
  }

  /** Past the last quote the whole scan is what was opened. */
  lemma ScanEnd(qs: seq<Option<Quote>>, cash0: real, cash: real, total: real, added: seq<PositionRecord>)
    requires total != 0.0
    requires Scan(qs, cash0, total) == Then(added, Scan(qs[|qs|..], cash, total))
    ensures Scan(qs, cash0, total) == Some(Opening(added, cash))
  {
    assert qs[|qs|..] == [];
    assert added + [] == added;
  }

  /** The scan opens the quoted positions themselves, in rank order. */
  lemma {:induction false} ScanPositions(qs: seq<Option<Quote>>, cash: real, total: real)
    requires total != 0.0
    ensures var r := Scan(qs, cash, total);
      r.Some? ==> forall j :: 0 <= j < |r.value.positions| ==> qs[j].Some? && r.value.positions[j] == qs[j].value.pos
  {
    var r := Scan(qs, cash, total);
    if qs != [] && qs[0].Some? && Accepts(qs[0].value, cash, total) && r.Some? {
      var pos := qs[0].value.pos;
      ScanPositions(qs[1..], cash - pos.totalCost, total);
      var rest := Scan(qs[1..], cash - pos.totalCost, total);
      assert r.value.positions == [pos] + rest.value.positions;
      forall j | 0 <= j < |r.value.positions| ensures qs[j].Some? && r.value.positions[j] == qs[j].value.pos {
        if j > 0 {
          assert r.value.positions[j] == rest.value.positions[j - 1];
          assert qs[1..][j - 1] == qs[j];
        }
      }
    }
  }

  /**
   * The scan opens a prefix of the ranked candidates, and the j-th of them
   * passed the cash check with the cash left after the j before it.
   */
  lemma {:induction false} ScanAccepted(qs: seq<Option<Quote>>, cash: real, total: real, j: nat)
    requires total != 0.0 && Scan(qs, cash, total).Some? && j < |Scan(qs, cash, total).value.positions|
    ensures qs[j].Some? && Accepts(qs[j].value, cash - TotalCost(Scan(qs, cash, total).value.positions[..j]), total)
  {
    var r := Scan(qs, cash, total).value;
    assert qs != [] && qs[0].Some? && Accepts(qs[0].value, cash, total);
    var pos := qs[0].value.pos;
    var rest := Scan(qs[1..], cash - pos.totalCost, total).value;
    assert r.positions == [pos] + rest.positions;
    if j == 0 {
      assert r.positions[..0] == [];
    } else {
      ScanAccepted(qs[1..], cash - pos.totalCost, total, j - 1);
      var before := rest.positions[..j - 1];
      assert r.positions[..j] == [pos] + before;
      assert ([pos] + before)[1..] == before;
      assert TotalCost(r.positions[..j]) == pos.totalCost + TotalCost(before);
      assert qs[j] == qs[1..][j - 1];
    }
  }

  /**
   * A scan that stops before the last quote stops at a sizable one that fails
   * the cash check with the cash left (the `break`).
   */
  lemma {:induction false} ScanStopsAtFirstFailure(qs: seq<Option<Quote>>, cash: real, total: real)
    requires total != 0.0
    ensures var r := Scan(qs, cash, total);
      r.Some? && |r.value.positions| < |qs| ==>
        qs[|r.value.positions|].Some? && !Accepts(qs[|r.value.positions|].value, r.value.cash, total)
  {
    var r := Scan(qs, cash, total);
    if qs != [] && qs[0].Some? && Accepts(qs[0].value, cash, total) && r.Some? {
      var pos := qs[0].value.pos;
      ScanStopsAtFirstFailure(qs[1..], cash - pos.totalCost, total);
      var rest := Scan(qs[1..], cash - pos.totalCost, total);
      assert r.value.positions == [pos] + rest.value.positions;
      if |r.value.positions| < |qs| {
        assert qs[|r.value.positions|] == qs[1..][|rest.value.positions|];
      }
    }
  }

  /** The walk gets to quote k: the k quotes before it are all sized and opened. */
  predicate Reaches(qs: seq<Option<Quote>>, cash: real, total: real, k: nat)
    requires total != 0.0 && k <= |qs|
  {
    var r := Scan(qs[..k], cash, total);
    r.Some? && |r.value.positions| == k
  }

  /**
   * The scan raises exactly when the walk gets to a candidate that cannot be
   * sized; one after the `break` is never looked at.
   */
  lemma {:induction false} ScanRaises(qs: seq<Option<Quote>>, cash: real, total: real)
    requires total != 0.0
    ensures Scan(qs, cash, total).None? <==> exists k :: 0 <= k < |qs| && qs[k].None? && Reaches(qs, cash, total, k)
  {
    if qs == [] {
    } else if qs[0].None? {
      assert qs[..0] == [];
      assert Reaches(qs, cash, total, 0);
    } else {
      var c := cash - qs[0].value.pos.totalCost;
      ScanRaises(qs[1..], c, total);
      forall k | 0 < k <= |qs|
        ensures Reaches(qs, cash, total, k) <==> Accepts(qs[0].value, cash, total) && Reaches(qs[1..], c, total, k - 1)
      {
        assert qs[..k][0] == qs[0] && qs[..k][1..] == qs[1..][..k - 1];
      }
      if Scan(qs, cash, total).None? {
        assert Accepts(qs[0].value, cash, total);
        var k :| 0 <= k < |qs[1..]| && qs[1..][k].None? && Reaches(qs[1..], c, total, k);
        assert qs[k + 1].None? && Reaches(qs, cash, total, k + 1);
      }
    }
  }

  /** The j-th position the scan of the candidates' quotes opens is an Open position dated t for the j-th candidate. */
  lemma ScanTickers(cs: seq<Candidate>, equities: map<Ticker, Stock>, t: nat, cash: real, total: real)
    requires Listed(cs, equities, t) && total != 0.0
    ensures var r := Scan(Quotes(cs, equities, t, total), cash, total);
      r.Some? ==>
        && |r.value.positions| <= |cs|
        && forall j :: 0 <= j < |r.value.positions| ==>
             r.value.positions[j].ticker == cs[j].ticker && r.value.positions[j].status == Open
             && r.value.positions[j].openDate == t
  {
    var qs := Quotes(cs, equities, t, total);
    ScanPositions(qs, cash, total);
    var r := Scan(qs, cash, total);
    if r.Some? {
      forall j | 0 <= j < |r.value.positions|
        ensures qs[j].Some? && qs[j].value.pos.ticker == cs[j].ticker && qs[j].value.pos.status == Open
                && qs[j].value.pos.openDate == t
      {
        QuotesAt(cs, equities, t, total, j);
      }
    }
  }

  /**
   * The ranked candidates of day t: distinct tickers of the universe that
   * signalled on day t - 1 and are not logged, each with bars up to day t.
   */
  lemma RankedListed(equities: map<Ticker, Stock>, universe: seq<Ticker>, days: nat, logged: seq<Ticker>, t: nat)
    requires UniverseOk(equities, universe, days) && 1 <= t < days
    ensures var ranked := Ranked(Candidates(equities, universe, logged, t - 1));
      && Listed(ranked, equities, t)
      && DistinctCandidates(ranked)
      && forall c :: c in ranked ==>
           c.ticker in universe && c.ticker !in logged && Signal(equities[c.ticker], t - 1, SignalDays, VolumeMargin)
  {
    RankedMembers(equities, universe, days, logged, t);
    RankedTickersDistinct(equities, universe, days, logged, t);
  }

  /** A universe without repeated tickers ranks candidates without repeated tickers. */
  lemma RankedTickersDistinct(equities: map<Ticker, Stock>, universe: seq<Ticker>, days: nat, logged: seq<Ticker>, t: nat)
    requires UniverseOk(equities, universe, days)
    ensures DistinctCandidates(Ranked(Candidates(equities, universe, logged, t - 1)))
  {
    CandidatesDistinct(equities, universe, logged, t - 1);
    RankedDistinct(Candidates(equities, universe, logged, t - 1));
  }

  /** `RankedListed` without distinctness. */
  lemma RankedMembers(equities: map<Ticker, Stock>, universe: seq<Ticker>, days: nat, logged: seq<Ticker>, t: nat)
    requires UniverseOk(equities, universe, days) && 1 <= t < days
    ensures var ranked := Ranked(Candidates(equities, universe, logged, t - 1));
      && Listed(ranked, equities, t)
      && forall c :: c in ranked ==>
           c.ticker in universe && c.ticker !in logged && Signal(equities[c.ticker], t - 1, SignalDays, VolumeMargin)
  {
    forall c | c in Ranked(Candidates(equities, universe, logged, t - 1))
      ensures c.ticker in universe && c.ticker !in logged && Signal(equities[c.ticker], t - 1, SignalDays, VolumeMargin)
      ensures c.ticker in equities && t < |equities[c.ticker].bars|
    {
      RankedMember(equities, universe, days, logged, t, c);
    }
  }

  /** One ranked candidate is a signalled, unlogged ticker of the universe. */
  lemma RankedMember(equities: map<Ticker, Stock>, universe: seq<Ticker>, days: nat, logged: seq<Ticker>, t: nat, c: Candidate)
    requires UniverseOk(equities, universe, days) && 1 <= t < days
    requires c in Ranked(Candidates(equities, universe, logged, t - 1))
    ensures c.ticker in universe && c.ticker in equities && |equities[c.ticker].bars| == days
    ensures c.ticker !in logged && Signal(equities[c.ticker], t - 1, SignalDays, VolumeMargin)
  {
    RankedFrom(Candidates(equities, universe, logged, t - 1), c);
    CandidateFacts(equities, universe, days, logged, t, c);
  }

  /** Every ranked candidate is one of the candidates. */
  lemma RankedFrom(cs: seq<Candidate>, c: Candidate)
    requires c in Ranked(cs)
    ensures c in cs
  {
    RankedPermutes(cs);
  }

  /** One candidate of day t - 1 is a signalled, unlogged ticker of the universe. */
  lemma CandidateFacts(equities: map<Ticker, Stock>, universe: seq<Ticker>, days: nat, logged: seq<Ticker>, t: nat, c: Candidate)
    requires UniverseOk(equities, universe, days) && 1 <= t < days
    requires c in Candidates(equities, universe, logged, t - 1)
    ensures c.ticker in universe && c.ticker in equities && |equities[c.ticker].bars| == days
    ensures c.ticker !in logged && Signal(equities[c.ticker], t - 1, SignalDays, VolumeMargin)
  {
    CandidatesTickers(equities, universe, logged, t - 1);
  }

  /**
   * Lines 56-87: phase 1. When the previous day's cash ratio exceeds
   * `cash_ratio` it is the scan of the ranked candidates (`None` when that
   * scan raises); otherwise nothing opens.
   */
  function PhaseOne(book: Book, equities: map<Ticker, Stock>, universe: seq<Ticker>, days: nat, t: nat): (r: Option<Opening>)
    requires UniverseOk(equities, universe, days) && 1 <= t < days && book.total != 0.0
    ensures r.Some? ==> r.value.cash == book.cash - TotalCost(r.value.positions)
    ensures !Above(book.cash, book.total) ==> r == Some(Opening([], book.cash))
  {
    if Above(book.cash, book.total) then
      RankedListed(equities, universe, days, Tickers(book.log), t);
      var ranked := Ranked(Candidates(equities, universe, Tickers(book.log), t - 1));
      var qs := Quotes(ranked, equities, t, book.total);
      ScanCash(qs, book.cash, book.total);
      Scan(qs, book.cash, book.total)
    else Some(Opening([], book.cash))
  }

  /** On a day that passes the cash-ratio guard, phase 1 is the scan of the ranked candidates. */
  lemma PhaseOneScan(book: Book, equities: map<Ticker, Stock>, universe: seq<Ticker>, days: nat, t: nat, ranked: seq<Candidate>)
    requires UniverseOk(equities, universe, days) && 1 <= t < days && book.total != 0.0
    requires Above(book.cash, book.total)
    requires ranked == Ranked(Candidates(equities, universe, Tickers(book.log), t - 1))
    ensures Listed(ranked, equities, t)
    ensures PhaseOne(book, equities, universe, days, t) == Scan(Quotes(ranked, equities, t, book.total), book.cash, book.total)
  {
    RankedListed(equities, universe, days, Tickers(book.log), t);
  }

  /**
   * What phase 1 may open: fresh Open positions dated t, in tickers of the
   * universe that signalled on day t - 1 and were never logged, no ticker twice.
   */
  ghost predicate Opens(ps: seq<PositionRecord>, log: seq<PositionRecord>, equities: map<Ticker, Stock>, universe: seq<Ticker>, t: nat)
  {
    && 1 <= t
    && (forall j :: 0 <= j < |ps| ==>
          && ps[j].ticker in universe && ps[j].ticker in equities && ps[j].ticker !in Tickers(log)
          && Signal(equities[ps[j].ticker], t - 1, SignalDays, VolumeMargin)
          && ps[j].status == Open && ps[j].openDate == t)
    && Distinct(Tickers(ps))
  }

  /** Phase 1 opens only what it may open. */
  lemma PhaseOneOpens(book: Book, equities: map<Ticker, Stock>, universe: seq<Ticker>, days: nat, t: nat)
    requires UniverseOk(equities, universe, days) && 1 <= t < days && book.total != 0.0
    ensures var r := PhaseOne(book, equities, universe, days, t);
      r.Some? ==> Opens(r.value.positions, book.log, equities, universe, t)
  {
    var r := PhaseOne(book, equities, universe, days, t);
    if Above(book.cash, book.total) && r.Some? {
      RankedListed(equities, universe, days, Tickers(book.log), t);
      var ranked := Ranked(Candidates(equities, universe, Tickers(book.log), t - 1));
      ScanTickers(ranked, equities, t, book.cash, book.total);
      ScanOpens(r.value.positions, ranked, book.log, equities, universe, days, t);
    }
  }

  /** Positions opened for some of the ranked candidates, in rank order, are what phase 1 may open. */
  lemma ScanOpens(ps: seq<PositionRecord>, ranked: seq<Candidate>, log: seq<PositionRecord>, equities: map<Ticker, Stock>,
                  universe: seq<Ticker>, days: nat, t: nat)
    requires UniverseOk(equities, universe, days) && 1 <= t
    requires DistinctCandidates(ranked)
    requires forall c :: c in ranked ==>
      c.ticker in universe && c.ticker !in Tickers(log) && Signal(equities[c.ticker], t - 1, SignalDays, VolumeMargin)
    requires |ps| <= |ranked|
    requires forall j :: 0 <= j < |ps| ==> ps[j].ticker == ranked[j].ticker && ps[j].status == Open && ps[j].openDate == t
    ensures Opens(ps, log, equities, universe, t)
  {
    forall j | 0 <= j < |ps| ensures ranked[j] in ranked {
    }
    DistinctFollowing(ps, ranked);
  }

  /** Positions that follow distinct candidates entry by entry have distinct tickers. */
  lemma DistinctFollowing(ps: seq<PositionRecord>, ranked: seq<Candidate>)
    requires DistinctCandidates(ranked)
    requires |ps| <= |ranked| && forall j :: 0 <= j < |ps| ==> ps[j].ticker == ranked[j].ticker
    ensures Distinct(Tickers(ps))
  {
    forall i, j | 0 <= i < j < |ps| ensures Apart(Tickers(ps), i, j) {
      assert TickersApart(ranked, i, j);
    }
  }

  // ---------------------------------------------------------------- phase 2

  /** Lines 98-108 for one position: stop first, then target, otherwise it stays open. */
  function SettleOne(r: PositionRecord, bar: Bar, t: Date): PositionRecord
  {
    if r.status != Open then r
    else if r.stopLoss > bar.low then AfterClose(r, r.stopLoss, t)
    else if r.targetPrice < bar.high then AfterClose(r, r.targetPrice, t)
    else r
  }

  /** What a position adds to cash today: its `realized_pnl` if it closes today. */
  function Credit(r: PositionRecord, bar: Bar, t: Date): real
  {
    if r.status == Open && SettleOne(r, bar, t).status == Close then SettleOne(r, bar, t).realizedPnl else 0.0
  }

  /** What a position adds to market value today: close times shares if it stays open. */
  function Mark(r: PositionRecord, bar: Bar, t: Date): real
  {
    if SettleOne(r, bar, t).status == Open then bar.close * r.nbShares as real else 0.0
  }

  /**
   * Each position gets exactly one outcome: an open one with stop_loss > low
   * closes at the stop, otherwise with target_price < high at the target, and
   * otherwise it stays open and is marked at the close; a closed one is left
   * as it is and adds nothing.
   */
  lemma SettleOutcome(r: PositionRecord, bar: Bar, t: Date)
    ensures var s := SettleOne(r, bar, t);
      && (r.status == Close ==> s == r && Credit(r, bar, t) == 0.0 && Mark(r, bar, t) == 0.0)
      && (r.status == Open && r.stopLoss > bar.low ==>
            s == AfterClose(r, r.stopLoss, t) && Credit(r, bar, t) == s.realizedPnl && Mark(r, bar, t) == 0.0)
      && (r.status == Open && !(r.stopLoss > bar.low) && r.targetPrice < bar.high ==>
            s == AfterClose(r, r.targetPrice, t) && Credit(r, bar, t) == s.realizedPnl && Mark(r, bar, t) == 0.0)
      && (r.status == Open && !(r.stopLoss > bar.low) && !(r.targetPrice < bar.high) ==>
            s == r && Credit(r, bar, t) == 0.0 && Mark(r, bar, t) == bar.close * r.nbShares as real)
      && s.ticker == r.ticker && s.nbShares == r.nbShares && s.totalCost == r.totalCost
  {
  }

  /** Every logged ticker can be looked up and has a bar on day t. */
  predicate Known(log: seq<PositionRecord>, equities: map<Ticker, Stock>, t: Date)
  {
    forall j :: 0 <= j < |log| ==> log[j].ticker in equities && t < |equities[log[j].ticker].bars|
  }

  function BarOn(equities: map<Ticker, Stock>, x: Ticker, t: Date): Bar
    requires x in equities && t < |equities[x].bars|
  {
    equities[x].bars[t]
  }

  /** The log after phase 2. */
  function Settled(log: seq<PositionRecord>, equities: map<Ticker, Stock>, t: Date): (r: seq<PositionRecord>)
    requires Known(log, equities, t)
    ensures |r| == |log|
    ensures forall j :: 0 <= j < |log| ==> r[j] == SettleOne(log[j], BarOn(equities, log[j].ticker, t), t)
  {
    seq(|log|, j requires 0 <= j < |log| => SettleOne(log[j], BarOn(equities, log[j].ticker, t), t))
  }

  /**
   * What phase 2 does to each entry of the log: ticker, shares and cost are
   * kept; a closed entry is left alone; an entry still open afterwards was
   * open and neither its stop nor its target was crossed; an entry that
   * closes today closes at its stop if the low went below it, otherwise at
   * its target, dated today.
   */
  lemma SettledLog(log: seq<PositionRecord>, equities: map<Ticker, Stock>, t: Date)
    requires Known(log, equities, t)
    ensures var s := Settled(log, equities, t);
      forall j :: 0 <= j < |log| ==>
        var bar := BarOn(equities, log[j].ticker, t);
        && s[j].ticker == log[j].ticker && s[j].nbShares == log[j].nbShares && s[j].totalCost == log[j].totalCost
        && (log[j].status == Close ==> s[j] == log[j])
        && (s[j].status == Open ==> s[j] == log[j] && log[j].stopLoss <= bar.low && log[j].targetPrice >= bar.high)
        && (log[j].status == Open && s[j].status == Close ==>
              && s[j].closeDate == t
              && s[j].closePrice == (if log[j].stopLoss > bar.low then log[j].stopLoss else log[j].targetPrice))
  {
    var s := Settled(log, equities, t);
    forall j | 0 <= j < |log|
      ensures var bar := BarOn(equities, log[j].ticker, t);
        && s[j].ticker == log[j].ticker && s[j].nbShares == log[j].nbShares && s[j].totalCost == log[j].totalCost
        && (log[j].status == Close ==> s[j] == log[j])
        && (s[j].status == Open ==> s[j] == log[j] && log[j].stopLoss <= bar.low && log[j].targetPrice >= bar.high)
        && (log[j].status == Open && s[j].status == Close ==>
              && s[j].closeDate == t
              && s[j].closePrice == (if log[j].stopLoss > bar.low then log[j].stopLoss else log[j].targetPrice))
    {
      SettleOutcome(log[j], BarOn(equities, log[j].ticker, t), t);
    }
  }

  /** Lines 102, 106: the cash credited in phase 2, position by position in log order. */
  function SumCredit(log: seq<PositionRecord>, equities: map<Ticker, Stock>, t: Date): real
    requires Known(log, equities, t)
  {
    if log == [] then 0.0
    else
      var last := log[|log| - 1];
      SumCredit(log[..|log| - 1], equities, t) + Credit(last, BarOn(equities, last.ticker, t), t)
  }

  /** Line 108: the market value accumulated in phase 2. */
  function SumMark(log: seq<PositionRecord>, equities: map<Ticker, Stock>, t: Date): real
    requires Known(log, equities, t)
  {
    if log == [] then 0.0
    else
      var last := log[|log| - 1];
      SumMark(log[..|log| - 1], equities, t) + Mark(last, BarOn(equities, last.ticker, t), t)
  }

  /** Settling one more entry adds its credit and its mark to the sums. */
  lemma SumsStep(log: seq<PositionRecord>, equities: map<Ticker, Stock>, t: Date, k: nat)
    requires Known(log, equities, t) && k < |log|
    ensures Known(log[..k], equities, t) && Known(log[..k + 1], equities, t)
    ensures var bar := BarOn(equities, log[k].ticker, t);
      && SumCredit(log[..k + 1], equities, t) == SumCredit(log[..k], equities, t) + Credit(log[k], bar, t)
      && SumMark(log[..k + 1], equities, t) == SumMark(log[..k], equities, t) + Mark(log[k], bar, t)
  {
    assert log[..k + 1][..k] == log[..k];
  }

  /** The reference valuation: close times shares summed over the positions that are Open. */
  function OpenValue(log: seq<PositionRecord>, equities: map<Ticker, Stock>, t: Date): real
    requires Known(log, equities, t)
  {
    if log == [] then 0.0
    else
      var last := log[|log| - 1];
      OpenValue(log[..|log| - 1], equities, t)
        + (if last.status == Open then BarOn(equities, last.ticker, t).close * last.nbShares as real else 0.0)
  }

  /** After phase 2 the market value is exactly the close value of the positions still open. */
  lemma {:induction false} MarketIsOpenValue(log: seq<PositionRecord>, equities: map<Ticker, Stock>, t: Date)
    requires Known(log, equities, t)
    ensures Known(Settled(log, equities, t), equities, t)
    ensures SumMark(log, equities, t) == OpenValue(Settled(log, equities, t), equities, t)
  {
    SettledKnown(log, equities, t);
    if log != [] {
      var s := Settled(log, equities, t);
      var front := log[..|log| - 1];
      assert Known(front, equities, t);
      MarketIsOpenValue(front, equities, t);
      assert Settled(front, equities, t) == s[..|s| - 1];
      var last := log[|log| - 1];
      assert s[|s| - 1] == SettleOne(last, BarOn(equities, last.ticker, t), t);
    }
  }

  /** Settling keeps every ticker, so the settled log is still priced on the day. */
  lemma SettledKnown(log: seq<PositionRecord>, equities: map<Ticker, Stock>, t: Date)
    requires Known(log, equities, t)
    ensures Known(Settled(log, equities, t), equities, t)
  {
    var s := Settled(log, equities, t);
    forall j | 0 <= j < |s| ensures s[j].ticker == log[j].ticker {
      assert s[j] == SettleOne(log[j], BarOn(equities, log[j].ticker, t), t);
    }
  }

  // ---------------------------------------------------------------- the day

  /** Everything one day needs: the shared calendar, a known log and a non-zero total to divide by. */
  ghost predicate DayPre(book: Book, equities: map<Ticker, Stock>, universe: seq<Ticker>, days: nat, t: nat)
  {
    && UniverseOk(equities, universe, days) && 1 <= t < days
    && LogKnown(book.log, equities)
    && book.total != 0.0
  }

  /** The book as phase 1 leaves it: the opened positions appended to the log and the cash left. */
  function AfterOpening(book: Book, op: Opening): Book
  {
    Book(op.cash, book.market, book.total, book.log + op.positions, book.curve)
  }

  /** A book whose parts are those phase 1 makes from `before` is `AfterOpening(before)`. */
  lemma OpenedBook(before: Book, after: Book, op: Opening)
    requires after.cash == op.cash && after.market == before.market && after.total == before.total
    requires after.log == before.log + op.positions && after.curve == before.curve
    ensures after == AfterOpening(before, op)
  {
  }

  /** Lines 89-112 on a book: settle every entry, credit the cash, value what is open, then the total and the row. */
  function SettleDay(book: Book, equities: map<Ticker, Stock>, t: Date): Book
    requires Known(book.log, equities, t)
  {
    var cash := book.cash + SumCredit(book.log, equities, t);
    var market := SumMark(book.log, equities, t);
    Book(cash, market, market + cash, Settled(book.log, equities, t), book.curve + [EquityRow(cash, market, market + cash)])
  }

  /** Phase 2 of a day: `SettleDay` applied to the book phase 1 leaves. */
  function PhaseTwo(book: Book, op: Opening, equities: map<Ticker, Stock>, t: Date): Book
    requires Known(book.log + op.positions, equities, t)
  {
    SettleDay(AfterOpening(book, op), equities, t)
  }

  /**
   * After phase 2 the market value is the close value of the positions still
   * open, the total is cash plus market and one row recording them is appended.
   */
  lemma PhaseTwoTotals(book: Book, op: Opening, equities: map<Ticker, Stock>, t: Date)
    requires Known(book.log + op.positions, equities, t)
    ensures var r := PhaseTwo(book, op, equities, t);
      && Known(r.log, equities, t)
      && r.market == OpenValue(r.log, equities, t)
      && r.total == r.cash + r.market
      && r.curve == book.curve + [EquityRow(r.cash, r.market, r.total)]
  {
    MarketIsOpenValue(book.log + op.positions, equities, t);
  }

  /** Phase 2 keeps every log entry's ticker and leaves a closed entry alone. */
  lemma PhaseTwoLog(book: Book, op: Opening, equities: map<Ticker, Stock>, t: Date)
    requires Known(book.log + op.positions, equities, t)
    ensures var r := PhaseTwo(book, op, equities, t);
      && Tickers(r.log) == Tickers(book.log) + Tickers(op.positions)
      && (forall j :: 0 <= j < |book.log| && book.log[j].status == Close ==> r.log[j] == book.log[j])
  {
    var log := book.log + op.positions;
    var s := Settled(log, equities, t);
    assert forall j :: 0 <= j < |log| ==> s[j].ticker == log[j].ticker;
    assert Tickers(s) == Tickers(book.log) + Tickers(op.positions);
    forall j | 0 <= j < |book.log| && book.log[j].status == Close ensures s[j] == book.log[j] {
      assert log[j] == book.log[j];
    }
  }

  /**
   * Lines 55-112 for day t: phase 1, then phase 2; `None` when phase 1 raises
   * on a candidate it cannot size.
   */
  function DayStep(book: Book, equities: map<Ticker, Stock>, universe: seq<Ticker>, days: nat, t: nat): (r: Option<Book>)
    requires DayPre(book, equities, universe, days, t)
    ensures r.Some? ==> LogKnown(r.value.log, equities) && |r.value.log| >= |book.log| && Extends(book, r.value, 1)
  {
    var op := PhaseOne(book, equities, universe, days, t);
    if op.None? then None
    else
      PhaseOneOpens(book, equities, universe, days, t);
      assert Known(book.log + op.value.positions, equities, t);
      PhaseTwoTotals(book, op.value, equities, t);
      OpeningLog(book, op.value, equities, universe, t);
      var r := PhaseTwo(book, op.value, equities, t);
      assert r.curve[..|book.curve|] == book.curve;
      Some(r)
  }

  /** A day raises exactly when phase 1 does, and otherwise is phase 2 applied to the log that phase 1 leaves. */
  lemma DayStepParts(book: Book, equities: map<Ticker, Stock>, universe: seq<Ticker>, days: nat, t: nat)
    requires DayPre(book, equities, universe, days, t)
    ensures var op := PhaseOne(book, equities, universe, days, t);
      && (op.None? <==> DayStep(book, equities, universe, days, t).None?)
      && (op.Some? ==>
            && Known(book.log + op.value.positions, equities, t)
            && DayStep(book, equities, universe, days, t) == Some(PhaseTwo(book, op.value, equities, t)))
  {
    PhaseOneOpens(book, equities, universe, days, t);
  }

  /**
   * Phase 1 taking `book` to `mid`, or raising, decides the day: it raises
   * exactly when phase 1 does, and otherwise it is phase 2 applied to `mid`.
   */
  lemma DayOpened(book: Book, mid: Book, raised: bool, equities: map<Ticker, Stock>, universe: seq<Ticker>, days: nat, t: nat)
    requires DayPre(book, equities, universe, days, t)
    requires raised <==> PhaseOne(book, equities, universe, days, t).None?
    requires !raised ==> mid == AfterOpening(book, PhaseOne(book, equities, universe, days, t).value)
    ensures raised <==> DayStep(book, equities, universe, days, t).None?
    ensures !raised ==> Known(mid.log, equities, t) && DayStep(book, equities, universe, days, t) == Some(SettleDay(mid, equities, t))
  {
    DayStepParts(book, equities, universe, days, t);
  }

  /** A book whose parts are those phase 2 makes from `before` is `SettleDay(before)`. */
  lemma SettledBook(before: Book, after: Book, equities: map<Ticker, Stock>, t: Date)
    requires Known(before.log, equities, t)
    requires after.cash == before.cash + SumCredit(before.log, equities, t)
    requires after.market == SumMark(before.log, equities, t)
    requires after.total == after.market + after.cash
    requires after.log == Settled(before.log, equities, t)
    requires after.curve == before.curve + [EquityRow(after.cash, after.market, after.total)]
    ensures after == SettleDay(before, equities, t)
  {
  }

  /**
   * A day whose opening cash ratio is at most `cash_ratio` cannot raise and
   * opens nothing: it is phase 2 on the book as it stands.
   */
  lemma CashGuard(book: Book, equities: map<Ticker, Stock>, universe: seq<Ticker>, days: nat, t: nat)
    requires DayPre(book, equities, universe, days, t)
    requires !Above(book.cash, book.total)
    ensures Known(book.log, equities, t)
    ensures DayStep(book, equities, universe, days, t) == Some(SettleDay(book, equities, t))
  {
    DayStepParts(book, equities, universe, days, t);
    assert book.log + [] == book.log;
    assert AfterOpening(book, Opening([], book.cash)) == book;
  }

  /**
   * A day opens only never-logged signalled tickers, each at most once, so the
   * log keeps one entry per ticker; the existing entries keep their tickers,
   * and a closed position is never touched again.
   */
  lemma DayStepLog(book: Book, equities: map<Ticker, Stock>, universe: seq<Ticker>, days: nat, t: nat)
    requires DayPre(book, equities, universe, days, t)
    ensures var r := DayStep(book, equities, universe, days, t);
      r.Some? ==>
        && Tickers(r.value.log)[..|book.log|] == Tickers(book.log)
        && (forall j :: 0 <= j < |book.log| && book.log[j].status == Close ==> r.value.log[j] == book.log[j])
        && (Distinct(Tickers(book.log)) ==> Distinct(Tickers(r.value.log)))
  {
    var op := PhaseOne(book, equities, universe, days, t);
    if op.Some? {
      PhaseOneOpens(book, equities, universe, days, t);
      assert Known(book.log + op.value.positions, equities, t);
      OpeningLog(book, op.value, equities, universe, t);
    }
  }

  /** `DayStepLog` for any opening phase 1 may produce. */
  lemma OpeningLog(book: Book, op: Opening, equities: map<Ticker, Stock>, universe: seq<Ticker>, t: nat)
    requires Known(book.log + op.positions, equities, t)
    requires Opens(op.positions, book.log, equities, universe, t)
    ensures var r := PhaseTwo(book, op, equities, t);
      && Tickers(r.log)[..|book.log|] == Tickers(book.log)
      && (forall j :: 0 <= j < |book.log| && book.log[j].status == Close ==> r.log[j] == book.log[j])
      && (Distinct(Tickers(book.log)) ==> Distinct(Tickers(r.log)))
  {
    PhaseTwoLog(book, op, equities, t);
    var before := Tickers(book.log);
    var all := before + Tickers(op.positions);
    assert all[..|book.log|] == before;
    if Distinct(before) {
      var added := Tickers(op.positions);
      forall k | 0 <= k < |added| ensures added[k] !in before {
        assert added[k] == op.positions[k].ticker;
      }
      DistinctAppend(before, added);
    }
  }

  /**
   * Appending positions opened for distinct ranked candidates that were never
   * logged keeps the log's tickers distinct and known.
   */
  lemma OpenedTickers(log: seq<PositionRecord>, ps: seq<PositionRecord>, ranked: seq<Candidate>, equities: map<Ticker, Stock>)
    requires Distinct(Tickers(log)) && LogKnown(log, equities)
    requires DistinctCandidates(ranked)
    requires forall c :: c in ranked ==> c.ticker in equities && c.ticker !in Tickers(log)
    requires |ps| <= |ranked| && forall j :: 0 <= j < |ps| ==> ps[j].ticker == ranked[j].ticker
    ensures Tickers(log + ps) == Tickers(log) + Tickers(ps)
    ensures Distinct(Tickers(log + ps)) && LogKnown(log + ps, equities)
  {
    var a, b := Tickers(log), Tickers(ps);
    assert Tickers(log + ps) == a + b;
    forall k | 0 <= k < |b| ensures b[k] !in a && b[k] in equities {
      assert ranked[k] in ranked;
    }
    DistinctFollowing(ps, ranked);
    DistinctAppend(a, b);
    forall j | 0 <= j < |log + ps| ensures (log + ps)[j].ticker in equities {
      if j >= |log| {
        assert (log + ps)[j] == ps[j - |log|];
      }
    }
  }

  /** Two duplicate-free sequences with no common element concatenate to one. */
  lemma DistinctAppend(a: seq<Ticker>, b: seq<Ticker>)
    requires Distinct(a) && Distinct(b)
    requires forall k :: 0 <= k < |b| ==> b[k] !in a
    ensures Distinct(a + b)
  {
    var n := |a|;
    forall i, j | 0 <= i < j < |a + b| ensures Apart(a + b, i, j) {
      if j >= n {
        assert (a + b)[j] == b[j - n];
        if i < n {
          assert (a + b)[i] == a[i];
        } else {
          assert (a + b)[i] == b[i - n];
          assert Apart(b, i - n, j - n);
        }
      } else {
        assert Apart(a, i, j);
      }
    }
  }

  /** At the end of the day the market value is the close value of the open positions and the row records the totals. */
  lemma DayStepTotals(book: Book, equities: map<Ticker, Stock>, universe: seq<Ticker>, days: nat, t: nat)
    requires DayPre(book, equities, universe, days, t)
    ensures var r := DayStep(book, equities, universe, days, t);
      r.Some? ==>
        && Known(r.value.log, equities, t)
        && r.value.market == OpenValue(r.value.log, equities, t)
        && r.value.total == r.value.cash + r.value.market
        && r.value.curve == book.curve + [EquityRow(r.value.cash, r.value.market, r.value.total)]
  {
    DayStepParts(book, equities, universe, days, t);
    var op := PhaseOne(book, equities, universe, days, t);
    if op.Some? {
      PhaseTwoTotals(book, op.value, equities, t);
    }
  }

  // ---------------------------------------------------------------- the run

  /**
   * Lines 55-112: the daily loop from day t to the end of the calendar.
   * `None` when some day would raise: a zero total value to divide by, or a
   * candidate the scan reaches whose ATR is missing or whose
   * `stop_margin * atr` is zero.
   */
  function RunFrom(book: Book, equities: map<Ticker, Stock>, universe: seq<Ticker>, days: nat, t: nat): Option<Book>
    requires UniverseOk(equities, universe, days) && 1 <= t && LogKnown(book.log, equities)
    decreases days - t
  {
    if t >= days then Some(book)
    else if book.total == 0.0 then None
    else
      var next := DayStep(book, equities, universe, days, t);
      if next.None? then None else RunFrom(next.value, equities, universe, days, t + 1)
  }

  /** A day that can run hands the rest of the run the book it leaves. */
  lemma RunStep(book: Book, next: Book, equities: map<Ticker, Stock>, universe: seq<Ticker>, days: nat, t: nat)
    requires DayPre(book, equities, universe, days, t) && DayStep(book, equities, universe, days, t) == Some(next)
    ensures LogKnown(next.log, equities)
    ensures RunFrom(book, equities, universe, days, t) == RunFrom(next, equities, universe, days, t + 1)
  {
  }

  /** A day that would raise ends the run without a result. */
  lemma RunStops(book: Book, equities: map<Ticker, Stock>, universe: seq<Ticker>, days: nat, t: nat)
    requires UniverseOk(equities, universe, days) && 1 <= t < days && LogKnown(book.log, equities)
    requires book.total == 0.0 || DayStep(book, equities, universe, days, t).None?
    ensures RunFrom(book, equities, universe, days, t) == None
  {
  }

  /** Past the last day the run is the book itself. */
  lemma RunDone(book: Book, equities: map<Ticker, Stock>, universe: seq<Ticker>, days: nat, t: nat)
    requires UniverseOk(equities, universe, days) && 1 <= t && LogKnown(book.log, equities)
    requires t >= days
    ensures RunFrom(book, equities, universe, days, t) == Some(book)
  {
  }

  /**
   * What running from `a` to `b` over n days guarantees: exactly n rows are
   * appended to the table, the earlier rows are left alone, every new row
   * has total = cash + market, and one log entry per ticker stays so.
   */
  ghost predicate Extends(a: Book, b: Book, n: nat)
  {
    && |b.curve| == |a.curve| + n
    && b.curve[..|a.curve|] == a.curve
    && (forall k :: |a.curve| <= k < |b.curve| ==> b.curve[k].total == b.curve[k].cash + b.curve[k].market)
    && (Distinct(Tickers(a.log)) ==> Distinct(Tickers(b.log)))
  }

  lemma ExtendsTrans(a: Book, b: Book, c: Book, m: nat, n: nat)
    requires Extends(a, b, m) && Extends(b, c, n)
    ensures Extends(a, c, m + n)
  {
    assert c.curve[..|a.curve|] == c.curve[..|b.curve|][..|a.curve|];
    forall k | |a.curve| <= k < |c.curve| ensures c.curve[k].total == c.curve[k].cash + c.curve[k].market {
      if k < |b.curve| {
        assert c.curve[k] == c.curve[..|b.curve|][k];
      }
    }
  }

  /** A completed run from day t extends the book by one row per remaining day. */
  lemma {:induction false} RunCurve(book: Book, equities: map<Ticker, Stock>, universe: seq<Ticker>, days: nat, t: nat)
    requires UniverseOk(equities, universe, days) && 1 <= t <= days && LogKnown(book.log, equities)
    ensures var r := RunFrom(book, equities, universe, days, t);
      r.Some? ==> Extends(book, r.value, days - t)
    decreases days - t
  {
    if t < days && book.total != 0.0 {
      var next := DayStep(book, equities, universe, days, t);
      if next.Some? {
        RunCurve(next.value, equities, universe, days, t + 1);
        var r := RunFrom(next.value, equities, universe, days, t + 1);
        if r.Some? {
          ExtendsTrans(book, next.value, r.value, 1, days - t - 1);
        }
      }
    } else if t == days {
      assert book.curve[..|book.curve|] == book.curve;
    }
  }
}
