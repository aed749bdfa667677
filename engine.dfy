/**
 * The daily loop of tradecompanion.py as the program runs it: a portfolio
 * object whose values are updated in place, a trading log of position
 * objects that phase 2 closes in place, and an equity table that gains one
 * row per day. Each method is proved against the functions of `Backtest`.
 */
module Engine {
  import opened Wrappers
  import opened Indicators
  import opened Ledger
  import opened Backtest

  /** The records of some position objects, in order. */
  ghost function Records(ps: seq<Position>): (rs: seq<PositionRecord>)
    reads set p | p in ps
    ensures |rs| == |ps|
  {
    if ps == [] then [] else Records(ps[..|ps| - 1]) + [ps[|ps| - 1].State()]
  }

  /** The j-th record is the j-th object's state. */
  lemma {:induction false} RecordsAt(ps: seq<Position>)
    ensures forall j :: 0 <= j < |ps| ==> Records(ps)[j] == ps[j].State()
  {
    if ps != [] {
      RecordsAt(ps[..|ps| - 1]);
    }
  }

  /** Objects whose states are given records, entry by entry, have those records. */
  lemma {:induction false} RecordsOf(ps: seq<Position>, rs: seq<PositionRecord>)
    requires |ps| == |rs| && forall j :: 0 <= j < |ps| ==> ps[j].State() == rs[j]
    ensures Records(ps) == rs
  {
    if ps != [] {
      RecordsOf(ps[..|ps| - 1], rs[..|rs| - 1]);
      assert rs == rs[..|rs| - 1] + [rs[|rs| - 1]];
    }
  }

  /** Appending a position appends its record. */
  lemma RecordsAppend(ps: seq<Position>, p: Position)
    ensures Records(ps + [p]) == Records(ps) + [p.State()]
  {
    assert (ps + [p])[..|ps|] == ps;
  }

  /** The records of two runs of objects are the records of their concatenation. */
  lemma {:induction false} RecordsConcat(ps: seq<Position>, qs: seq<Position>)
    ensures Records(ps + qs) == Records(ps) + Records(qs)
    decreases |qs|
  {
    if qs != [] {
      var front := qs[..|qs| - 1];
      RecordsConcat(ps, front);
      assert (ps + qs)[..|ps + qs| - 1] == ps + front;
    }  else {
      assert ps + qs == ps;
    }
  }

  /** Records of objects a step did not touch are what they were before it. */
  twostate lemma {:induction false} RecordsUnchanged(ps: seq<Position>)
    requires forall j :: 0 <= j < |ps| ==> unchanged(ps[j])
    ensures Records(ps) == old(Records(ps))
    decreases |ps|
  {
    if ps != [] {
      RecordsUnchanged(ps[..|ps| - 1]);
      assert unchanged(ps[|ps| - 1]);
    }
  }

  /** `my_log.keys()`: the tickers of the logged positions, in order. */
  function Keys(ps: seq<Position>): (r: seq<Ticker>)
    ensures |r| == |ps| && forall j :: 0 <= j < |ps| ==> r[j] == ps[j].ticker
  {
    if ps == [] then [] else Keys(ps[..|ps| - 1]) + [ps[|ps| - 1].ticker]
  }

  /**
   * Every logged ticker names a stock, and the log holds one position per
   * ticker (`my_log` is a dictionary keyed by ticker).
   */
  ghost predicate Keyed(ps: seq<Position>, equities: map<Ticker, Stock>)
  {
    (forall j :: 0 <= j < |ps| ==> ps[j].ticker in equities) && Distinct(Keys(ps))
  }

  /** The script's state: `my_portfolio`, `my_log` (in insertion order) and the `trading_engine` table. */
  class TradingEngine {
    const portfolio: Portfolio
    const equities: map<Ticker, Stock>
    const universe: seq<Ticker>
    const days: nat
    var log: seq<Position>
    var equity: seq<EquityRow>

    /** The shared calendar and a log keyed by the tickers of known stocks. */
    ghost predicate Valid()
      reads this
    {
      UniverseOk(equities, universe, days) && Keyed(log, equities)
    }

    /** The state as the value the functions of `Backtest` work on. */
    ghost function CurrentBook(): Book
      reads this, portfolio, set p | p in log
    {
      Book(portfolio.cashValue, portfolio.marketValue, portfolio.totalValue, Records(log), equity)
    }

    /** The log's keys are the tickers of its records. */
    lemma LoggedTickers()
      ensures Keys(log) == Tickers(Records(log))
      ensures LogKnown(Records(log), equities) <==> forall j :: 0 <= j < |log| ==> log[j].ticker in equities
    {
      RecordsAt(log);
    }

    /** Every logged position has a bar on any day of the calendar. */
    lemma LogReady(t: nat)
      requires Valid() && t < days
      ensures Known(Records(log), equities, t)
      ensures forall j :: 0 <= j < |log| ==> log[j].State() == Records(log)[j]
    {
      RecordsAt(log);
    }

    /**
     * One position per ticker means no object appears twice in the log:
     * each logged object has its own slot, its index.
     */
    ghost function Slots(): (m: map<Position, int>)
      reads this
      requires Valid()
      ensures forall j :: 0 <= j < |log| ==> log[j] in m && m[log[j]] == j
    {
      var ps := log;
      assert forall i, j :: 0 <= i < |ps| && 0 <= j < |ps| && i != j ==> ps[i] != ps[j] by {
        forall i, j | 0 <= i < |ps| && 0 <= j < |ps| && i != j ensures ps[i] != ps[j] {
          if i < j { assert Apart(Keys(log), i, j); }
          else { assert Apart(Keys(log), j, i); }
        }
      }
      var m := map j | 0 <= j < |ps| :: ps[j] := j;
      assert forall j :: 0 <= j < |ps| ==> ps[j] in m && m[ps[j]] == j by {
        forall j | 0 <= j < |ps| ensures ps[j] in m && m[ps[j]] == j { }
      }
      m
    }

    /** The script's set-up: the `Momo` portfolio with 4000 in cash, an empty log and an empty table. */
    constructor (equities: map<Ticker, Stock>, universe: seq<Ticker>, days: nat, start: Date)
      requires UniverseOk(equities, universe, days)
      ensures Valid() && fresh(portfolio)
      ensures this.equities == equities && this.universe == universe && this.days == days
      ensures portfolio.name == "Momo" && portfolio.openDate == start
      ensures CurrentBook() == Book(InitialCash, 0.0, InitialCash, [], [])
    {
      this.equities := equities;
      this.universe := universe;
      this.days := days;
      portfolio := new Portfolio("Momo", start, InitialCash);
      log := [];
      equity := [];
    }

    /** Lines 60-65: the signalled, never-logged stocks in universe order with their volume on day p. */
    method CollectCandidates(p: int) returns (cs: seq<Candidate>)
      requires Valid()
      ensures cs == Candidates(equities, universe, Tickers(Records(log)), p)
    {
      LoggedTickers();
      var logged := Keys(log);
      cs := [];
      var k := 0;
      while k < |universe|
        invariant 0 <= k <= |universe|
        invariant cs == Candidates(equities, universe[..k], logged, p)
      {
        var stock := equities[universe[k]];
        cs := cs + CandidateOf(stock, logged, p);
        CandidatesExtend(equities, universe, logged, p, k);
        k := k + 1;
      }
      assert universe[..k] == universe;
    }

    /**
     * Lines 72-86: open the ranked candidates in turn while the cash check
     * passes and add them to `my_log`. `raised` tells whether the walk reached
     * a candidate `risk` cannot size, which makes the script raise; otherwise
     * the log gains the positions of the scan of their quotes and the cash is
     * what the scan leaves, and as the candidates are distinct and not yet
     * logged, the log stays one position per ticker.
     */
    method OpenPhase(ranked: seq<Candidate>, t: nat) returns (raised: bool)
      requires Valid() && portfolio.totalValue != 0.0 && Listed(ranked, equities, t)
      requires DistinctCandidates(ranked) && forall c :: c in ranked ==> c.ticker !in Keys(log)
      modifies this, portfolio
      ensures Valid()
      ensures var r := Scan(Quotes(ranked, equities, t, old(portfolio.totalValue)), old(portfolio.cashValue), old(portfolio.totalValue));
        && (raised <==> r.None?)
        && (!raised ==> CurrentBook() == AfterOpening(old(CurrentBook()), r.value))
      ensures raised ==> log == old(log)
      ensures |log| >= |old(log)| && log[..|old(log)|] == old(log)
      ensures forall j :: |old(log)| <= j < |log| ==> fresh(log[j])
      ensures forall j :: 0 <= j < |log| ==> log[j] in old(log) || fresh(log[j])
    {
      LoggedTickers();
      ghost var book := CurrentBook();
      ghost var before := Records(log);
      ghost var total, cash := portfolio.totalValue, portfolio.cashValue;
      ghost var r := Scan(Quotes(ranked, equities, t, total), cash, total);
      var created;
      created, raised := Buy(ranked, t);
      if raised {
        assert log[..|log|] == log;
        return;
      }
      ScanTickers(ranked, equities, t, cash, total);
      RecordsUnchanged(log);
      ghost var ps := log;
      AddToLog(created, ranked, r.value.positions);
      assert log[..|ps|] == ps;
      OpenedBook(book, CurrentBook(), r.value);
    }

    /** Line 84: the new positions join `my_log` after the existing ones, keeping one position per ticker. */
    method AddToLog(created: seq<Position>, ghost ranked: seq<Candidate>, ghost ps: seq<PositionRecord>)
      requires Valid() && Records(created) == ps
      requires DistinctCandidates(ranked) && forall c :: c in ranked ==> c.ticker in equities && c.ticker !in Keys(log)
      requires |ps| <= |ranked| && forall j :: 0 <= j < |ps| ==> ps[j].ticker == ranked[j].ticker
      modifies this
      ensures Valid() && log == old(log) + created && equity == old(equity)
      ensures Records(log) == old(Records(log)) + ps
    {
      LoggedTickers();
      ghost var before := log;
      RecordsConcat(before, created);
      label Before:
      log := log + created;
      RecordsUnchanged@Before(log);
      OpenedTickers(Records(before), ps, ranked, equities);
      LoggedTickers();
    }

    /**
     * Lines 72-86: walk the ranked candidates, creating a position for each
     * that passes the cash check and debiting its `total_cost`, until the
     * first that fails. `raised` tells whether the walk reached a candidate
     * that cannot be sized; otherwise the new positions and the cash are the
     * scan of their quotes.
     */
    method Buy(ranked: seq<Candidate>, t: nat) returns (created: seq<Position>, raised: bool)
      requires portfolio.totalValue != 0.0 && Listed(ranked, equities, t)
      modifies portfolio
      ensures var r := Scan(Quotes(ranked, equities, t, old(portfolio.totalValue)), old(portfolio.cashValue), old(portfolio.totalValue));
        && (raised <==> r.None?)
        && (!raised ==> Records(created) == r.value.positions && portfolio.cashValue == r.value.cash)
      ensures portfolio.marketValue == old(portfolio.marketValue) && portfolio.totalValue == old(portfolio.totalValue)
      ensures forall j :: 0 <= j < |created| ==> fresh(created[j])
    {
      var total := portfolio.totalValue;
      ghost var cash0 := portfolio.cashValue;
      ghost var qs := Quotes(ranked, equities, t, total);
      ghost var added: seq<PositionRecord> := [];
      created, raised := [], false;
      assert qs[0..] == qs;
      ThenNil(Scan(qs, cash0, total));
      var k := 0;
      while k < |ranked|
        invariant 0 <= k <= |ranked|
        invariant portfolio.totalValue == total && portfolio.marketValue == old(portfolio.marketValue)
        invariant Records(created) == added && forall j :: 0 <= j < |created| ==> fresh(created[j])
        invariant Scan(qs, cash0, total) == Then(added, Scan(qs[k..], portfolio.cashValue, total))
      {
        var position;
        position, raised := BuyOne(ranked, k, t, total, qs, cash0, added);
        if raised {
          return;
        }
        if position == null {
          break;
        }
        var made: Position := position;
        RecordsAppend(created, made);
        created := created + [made];
        added := added + [qs[k].value.pos];
        k := k + 1;
      }
      if k == |ranked| {
        ScanEnd(qs, cash0, portfolio.cashValue, total, added);
      }
    }

    /**
     * Lines 73-85 for the k-th ranked candidate, with `added` opened before it:
     * `raised` when it cannot be sized, no position when it fails the cash
     * check, and otherwise its new position with its cost debited; each time
     * the whole scan is what follows from that step.
     */
    method BuyOne(ranked: seq<Candidate>, k: nat, t: nat, total: real, ghost qs: seq<Option<Quote>>,
                  ghost cash0: real, ghost added: seq<PositionRecord>)
      returns (position: Position?, raised: bool)
      requires Listed(ranked, equities, t) && k < |ranked| && total != 0.0
      requires qs == Quotes(ranked, equities, t, total)
      requires Scan(qs, cash0, total) == Then(added, Scan(qs[k..], portfolio.cashValue, total))
      modifies portfolio
      ensures portfolio.marketValue == old(portfolio.marketValue) && portfolio.totalValue == old(portfolio.totalValue)
      ensures raised ==> Scan(qs, cash0, total) == None
      ensures !raised && position == null ==> Scan(qs, cash0, total) == Some(Opening(added, portfolio.cashValue))
      ensures position != null ==>
        && !raised && fresh(position) && qs[k].Some? && position.State() == qs[k].value.pos
        && Scan(qs, cash0, total) == Then(added + [qs[k].value.pos], Scan(qs[k + 1..], portfolio.cashValue, total))
    {
      ghost var cash := portfolio.cashValue;
      QuotesAt(ranked, equities, t, total, k);
      ScanWalk(qs, k, cash0, cash, total, added);
      var z, accepted := SizeUp(ranked, k, t, total);
      if z.None? {
        return null, true;
      }
      if !accepted {
        return null, false;
      }
      position := OpenOne(ranked, k, t, total, z.value);
      raised := false;
    }

    /**
     * Lines 73-78 for the k-th ranked candidate: size it from the previous
     * close and ATR under the previous total value, and apply the cash check.
     * `z` is `None` where `atr` or `risk` raises.
     */
    method SizeUp(ranked: seq<Candidate>, k: nat, t: nat, total: real) returns (z: Option<Sizing>, accepted: bool)
      requires Listed(ranked, equities, t) && k < |ranked| && total != 0.0
      ensures ranked[k] in ranked
      ensures z.Some? <==> Sizable(equities[ranked[k].ticker], t - 1)
      ensures z.Some? ==>
        && z.value == SizeFor(equities[ranked[k].ticker], t, total)
        && accepted == Accepts(QuoteFor(ranked[k], equities, t, total).value, portfolio.cashValue, total)
    {
      assert ranked[k] in ranked;
      var s := equities[ranked[k].ticker];
      var closePrice := s.bars[t - 1].close;
      var stockAtr := Atr(s, t - 1, AtrDays);
      if stockAtr.None? || StopMargin * stockAtr.value == 0.0 {
        return None, false;
      }
      var sizing := Risk(total, closePrice, stockAtr.value, RiskPerTrade, RiskRatio, StopMargin);
      var cost := sizing.sharesToBuy as real * closePrice;
      assert QuoteFor(ranked[k], equities, t, total).value.checkCost == cost;
      var remaining := portfolio.cashValue - cost;
      z, accepted := Some(sizing), remaining / total > CashRatio;
      AboveRatio(remaining, total);
    }

    /**
     * Lines 79-85 for the k-th ranked candidate: a new position at today's
     * open, recorded after the ones created so far; its `total_cost` is debited.
     */
    method OpenOne(ranked: seq<Candidate>, k: nat, t: nat, total: real, z: Sizing)
      returns (position: Position)
      requires Listed(ranked, equities, t) && k < |ranked| && total != 0.0
      requires ranked[k] in ranked && Sizable(equities[ranked[k].ticker], t - 1)
      requires z == SizeFor(equities[ranked[k].ticker], t, total)
      modifies portfolio
      ensures fresh(position)
      ensures position.State() == QuoteFor(ranked[k], equities, t, total).value.pos
      ensures portfolio.cashValue == old(portfolio.cashValue) - QuoteFor(ranked[k], equities, t, total).value.pos.totalCost
      ensures portfolio.marketValue == old(portfolio.marketValue) && portfolio.totalValue == old(portfolio.totalValue)
    {
      var c := ranked[k];
      var s := equities[c.ticker];
      position := new Position(c.ticker, z.sharesToBuy, t, t, s.bars[t].open, z.stopPrice, z.targetPrice);
      portfolio.cashValue := portfolio.cashValue - position.totalCost;
    }

    /**
     * Lines 95-108 for one logged position: an open position whose stop lies
     * above today's low closes at the stop, else one whose target lies below
     * today's high closes at the target, crediting `realized_pnl`; one that
     * stays open adds close times shares to the market value.
     */
    method Settle(position: Position, t: nat)
      requires position.ticker in equities && t < |equities[position.ticker].bars|
      modifies portfolio, position
      ensures var bar := BarOn(equities, position.ticker, t);
        && position.State() == SettleOne(old(position.State()), bar, t)
        && portfolio.cashValue == old(portfolio.cashValue) + Credit(old(position.State()), bar, t)
        && portfolio.marketValue == old(portfolio.marketValue) + Mark(old(position.State()), bar, t)
      ensures portfolio.totalValue == old(portfolio.totalValue)
    {
      var bar := equities[position.ticker].bars[t];
      SettleOutcome(position.State(), bar, t);
      if position.status == Open {
        if position.stopLoss > bar.low {
          position.ClosePosition(position.stopLoss, t);
          portfolio.cashValue := portfolio.cashValue + position.realizedPnl;
        } else if position.targetPrice < bar.high {
          position.ClosePosition(position.targetPrice, t);
          portfolio.cashValue := portfolio.cashValue + position.realizedPnl;
        } else {
          portfolio.marketValue := portfolio.marketValue + bar.close * position.nbShares as real;
        }
      }
    }

    /**
     * Lines 89-108: reset the market value, then settle every logged
     * position in log order. The log becomes its settled records, the cash
     * gains the credits and the market value is the marks.
     */
    method SettlePhase(t: nat)
      requires Valid() && t < days
      modifies portfolio, log
      ensures Known(old(Records(log)), equities, t)
      ensures Records(log) == Settled(old(Records(log)), equities, t)
      ensures portfolio.cashValue == old(portfolio.cashValue) + SumCredit(old(Records(log)), equities, t)
      ensures portfolio.marketValue == SumMark(old(Records(log)), equities, t)
      ensures portfolio.totalValue == old(portfolio.totalValue)
      ensures Valid() && log == old(log) && equity == old(equity)
    {
      ghost var before := Records(log);
      LogReady(t);
      portfolio.marketValue := 0.0;
      SettleAll(t, Slots(), before);
      RecordsOf(log, Settled(before, equities, t));
    }

    /** The loop of lines 90-108 over a log whose records are `before`. */
    method SettleAll(t: nat, ghost slot: map<Position, int>, ghost before: seq<PositionRecord>)
      requires |before| == |log| && Known(before, equities, t)
      requires forall j :: 0 <= j < |log| ==> log[j] in slot && slot[log[j]] == j
      requires forall j :: 0 <= j < |log| ==> log[j].State() == before[j]
      modifies portfolio, log
      ensures forall j :: 0 <= j < |log| ==> log[j].State() == Settled(before, equities, t)[j]
      ensures portfolio.cashValue == old(portfolio.cashValue) + SumCredit(before, equities, t)
      ensures portfolio.marketValue == old(portfolio.marketValue) + SumMark(before, equities, t)
      ensures portfolio.totalValue == old(portfolio.totalValue)
    {
      ghost var settled := Settled(before, equities, t);
      var k := 0;
      while k < |log|
        invariant 0 <= k <= |log| && Known(before[..k], equities, t)
        invariant forall j :: 0 <= j < k ==> log[j].State() == settled[j]
        invariant forall j :: k <= j < |log| ==> log[j].State() == before[j]
        invariant portfolio.cashValue == old(portfolio.cashValue) + SumCredit(before[..k], equities, t)
        invariant portfolio.marketValue == old(portfolio.marketValue) + SumMark(before[..k], equities, t)
        invariant portfolio.totalValue == old(portfolio.totalValue)
      {
        label Pass:
        Settle(log[k], t);
        assert log[k].State() == settled[k];
        forall j | 0 <= j < |log| && j != k ensures log[j].State() == old@Pass(log[j].State()) {
          assert slot[log[j]] != slot[log[k]];
        }
        SumsStep(before, equities, t, k);
        k := k + 1;
      }
      assert before[..k] == before;
    }

    /**
     * Phase 1 of day t seen from the whole day: it raises exactly when
     * `DayStep` does, and otherwise leaves the book whose phase 2 `DayStep` is.
     */
    method BeginDay(t: nat) returns (raised: bool)
      requires Valid() && DayPre(CurrentBook(), equities, universe, days, t)
      modifies this, portfolio
      ensures Valid()
      ensures var d := DayStep(old(CurrentBook()), equities, universe, days, t);
        && (raised <==> d.None?)
        && (!raised ==> Known(Records(log), equities, t) && d == Some(SettleDay(CurrentBook(), equities, t)))
      ensures raised ==> log == old(log)
      ensures |log| >= |old(log)| && log[..|old(log)|] == old(log)
      ensures forall j :: |old(log)| <= j < |log| ==> fresh(log[j])
      ensures forall j :: 0 <= j < |log| ==> log[j] in old(log) || fresh(log[j])
    {
      ghost var book := CurrentBook();
      raised := OpenStep(t);
      DayOpened(book, CurrentBook(), raised, equities, universe, days, t);
    }

    /**
     * Lines 56-87 for day t: when the cash ratio exceeds `cash_ratio`, the
     * signalling stocks not yet in `my_log`, ranked by the previous day's
     * volume, are opened while the cash check passes. `raised` tells whether
     * `PhaseOne` raises; otherwise the new state is `AfterOpening` of the old
     * one with the positions and cash of `PhaseOne`.
     */
    method OpenStep(t: nat) returns (raised: bool)
      requires Valid() && DayPre(CurrentBook(), equities, universe, days, t)
      modifies this, portfolio
      ensures Valid()
      ensures var r := PhaseOne(old(CurrentBook()), equities, universe, days, t);
        && (raised <==> r.None?)
        && (!raised ==> CurrentBook() == AfterOpening(old(CurrentBook()), r.value))
      ensures raised ==> log == old(log)
      ensures |log| >= |old(log)| && log[..|old(log)|] == old(log)
      ensures forall j :: |old(log)| <= j < |log| ==> fresh(log[j])
      ensures forall j :: 0 <= j < |log| ==> log[j] in old(log) || fresh(log[j])
    {
      AboveRatio(portfolio.cashValue, portfolio.totalValue);
      if portfolio.cashValue / portfolio.totalValue > CashRatio {
        raised := OpenDay(t);
      } else {
        raised := false;
        ghost var op := Opening([], portfolio.cashValue);
        ghost var book := CurrentBook();
        assert book.log + op.positions == book.log;
        OpenedBook(book, book, op);
        assert log[..|log|] == log;
      }
    }

    /** Lines 60-87 for a day that passes the cash-ratio guard of lines 58-59. */
    method OpenDay(t: nat) returns (raised: bool)
      requires Valid() && DayPre(CurrentBook(), equities, universe, days, t)
      requires Above(portfolio.cashValue, portfolio.totalValue)
      modifies this, portfolio
      ensures Valid()
      ensures var r := PhaseOne(old(CurrentBook()), equities, universe, days, t);
        && (raised <==> r.None?)
        && (!raised ==> CurrentBook() == AfterOpening(old(CurrentBook()), r.value))
      ensures raised ==> log == old(log)
      ensures |log| >= |old(log)| && log[..|old(log)|] == old(log)
      ensures forall j :: |old(log)| <= j < |log| ==> fresh(log[j])
      ensures forall j :: 0 <= j < |log| ==> log[j] in old(log) || fresh(log[j])
    {
      ghost var book := CurrentBook();
      LoggedTickers();
      var cs := CollectCandidates(t - 1);
      RecordsUnchanged(log);
      var ranked := Ranked(cs);
      RankedListed(equities, universe, days, Keys(log), t);
      PhaseOneScan(book, equities, universe, days, t, ranked);
      raised := OpenPhase(ranked, t);
    }

    /** Lines 109-112: the new total value and the day's row of the table; the log is left alone. */
    method RecordDay()
      requires Valid()
      modifies this, portfolio
      ensures Valid()
      ensures portfolio.cashValue == old(portfolio.cashValue) && portfolio.marketValue == old(portfolio.marketValue)
      ensures portfolio.totalValue == old(portfolio.marketValue) + old(portfolio.cashValue)
      ensures equity == old(equity) + [EquityRow(portfolio.cashValue, portfolio.marketValue, portfolio.totalValue)]
      ensures log == old(log) && Records(log) == old(Records(log))
    {
      label Before:
      portfolio.totalValue := portfolio.marketValue + portfolio.cashValue;
      equity := equity + [EquityRow(portfolio.cashValue, portfolio.marketValue, portfolio.totalValue)];
      RecordsUnchanged@Before(log);
    }

    /**
     * Lines 89-112: settle every logged position against day t, update the
     * portfolio's values and append the day's row. The new state is `SettleDay` of the old.
     */
    method CloseStep(t: nat)
      requires Valid() && t < days
      modifies this, portfolio, log
      ensures Valid() && log == old(log)
      ensures Known(old(Records(log)), equities, t)
      ensures CurrentBook() == SettleDay(old(CurrentBook()), equities, t)
    {
      ghost var book := CurrentBook();
      LogReady(t);
      SettlePhase(t);
      RecordDay();
      SettledBook(book, CurrentBook(), equities, t);
    }

    /**
     * Lines 55-112 for day t: phase 1, phase 2, then the new total value and
     * the day's row of the table. `raised` tells whether phase 1 raises;
     * otherwise the new state is `DayStep` of the old one.
     */
    method Step(t: nat) returns (raised: bool)
      requires Valid() && DayPre(CurrentBook(), equities, universe, days, t)
      modifies this, portfolio, log
      ensures Valid()
      ensures var r := DayStep(old(CurrentBook()), equities, universe, days, t);
        && (raised <==> r.None?)
        && (!raised ==> CurrentBook() == r.value)
      ensures raised ==> log == old(log) && Records(log) == old(Records(log))
      ensures |log| >= |old(log)| && log[..|old(log)|] == old(log)
      ensures forall j :: |old(log)| <= j < |log| ==> fresh(log[j])
      ensures forall j :: 0 <= j < |log| ==> log[j] in old(log) || fresh(log[j])
    {
      raised := BeginDay(t);
      if raised {
        return;
      }
      CloseStep(t);
    }

    /**
     * Line 55: the daily loop from day `start` to the end of the calendar.
     * It stops early, with `completed` false, on the first day where the
     * script would raise (a zero total value, or a candidate that cannot be
     * sized); a completed run leaves the state `RunFrom` computes.
     */
    method Run(start: nat) returns (completed: bool)
      requires Valid() && 1 <= start && LogKnown(Records(log), equities)
      modifies this, portfolio, log
      ensures Valid()
      ensures completed <==> RunFrom(old(CurrentBook()), equities, universe, days, start).Some?
      ensures completed ==> CurrentBook() == RunFrom(old(CurrentBook()), equities, universe, days, start).value
    {
      ghost var run := RunFrom(CurrentBook(), equities, universe, days, start);
      var t := start;
      while t < days
        invariant Valid() && start <= t && LogKnown(Records(log), equities)
        invariant RunFrom(CurrentBook(), equities, universe, days, t) == run
        invariant forall j :: 0 <= j < |log| ==> log[j] in old(log) || fresh(log[j])
        decreases days - t
      {
        var ok := RunDay(t);
        if !ok {
          return false;
        }
        t := t + 1;
      }
      RunDone(CurrentBook(), equities, universe, days, t);
      completed := true;
    }

    /**
     * One pass of the loop of line 55: day t runs unless the script would
     * raise on it, and the rest of the run goes on from the state it leaves.
     */
    method RunDay(t: nat) returns (ok: bool)
      requires Valid() && 1 <= t < days && LogKnown(Records(log), equities)
      modifies this, portfolio, log
      ensures Valid() && LogKnown(Records(log), equities)
      ensures ok ==> RunFrom(old(CurrentBook()), equities, universe, days, t) == RunFrom(CurrentBook(), equities, universe, days, t + 1)
      ensures !ok ==> RunFrom(old(CurrentBook()), equities, universe, days, t) == None
      ensures forall j :: 0 <= j < |log| ==> log[j] in old(log) || fresh(log[j])
    {
      LoggedTickers();
      ghost var book := CurrentBook();
      if portfolio.totalValue == 0.0 {
        RunStops(book, equities, universe, days, t);
        return false;
      }
      var raised := Step(t);
      if raised {
        RunStops(book, equities, universe, days, t);
        return false;
      }
      RunStep(book, CurrentBook(), equities, universe, days, t);
      ok := true;
    }
  }
}
