/**
 * The position ledger and the risk sizer (trading_packages/portfolio.py).
 * Prices and values are exact `real`s; the commission is the rational 4.95/1.3.
 */
module Ledger {
  import opened Indicators

  /** A date: a position in the shared trading calendar. */
  type Date = nat

  /** `Position.fees`: the commission charged on opening and again on closing. */
  const Fee: real := 4.95 / 1.3

  /** `Position.status`: 'Open' or 'Close'. */
  datatype Status = Open | Close

  /** The record `Portfolio.risk` returns. */
  datatype Sizing = Sizing(riskPerShare: real, stopPrice: real, profitPerShare: real,
                           sharesToBuy: int, targetPrice: real)

  /** Python's `round` on a number: to the nearest integer, ties to the even one. */
  function RoundHalfEven(x: real): int
  {
    var f := x.Floor;
    var frac := x - f as real;
    if frac < 0.5 then f
    else if frac > 0.5 then f + 1
    else if f % 2 == 0 then f else f + 1
  }

  /** `RoundHalfEven(x)` is within 1/2 of x and, on a tie, even. */
  lemma RoundHalfEvenNearest(x: real)
    ensures x - 0.5 <= RoundHalfEven(x) as real <= x + 0.5
    ensures var n := RoundHalfEven(x);
      (n as real - x == 0.5 || x - n as real == 0.5) ==> n % 2 == 0
  {
  }

  lemma MulNonNegative(a: real, b: real)
    requires a >= 0.0 && b >= 0.0
    ensures a * b >= 0.0
  {
  }

  /** |n - q| <= 1/2 scales to |n * d - q * d| <= |d| / 2. */
  lemma ScaleHalf(n: real, q: real, d: real)
    requires q - 0.5 <= n <= q + 0.5
    ensures -0.5 * Abs(d) <= n * d - q * d <= 0.5 * Abs(d)
  {
    var e := n - q;
    var m := Abs(d);
    MulNonNegative(e + 0.5, m);
    MulNonNegative(0.5 - e, m);
    assert (e + 0.5) * m == e * m + 0.5 * m;
    assert (0.5 - e) * m == 0.5 * m - e * m;
    if d >= 0.0 {
      assert n * d - q * d == e * m;
    } else {
      assert n * d - q * d == -(e * m);
    }
  }

  /**
   * `Portfolio.risk(price, atr, risk_per_trade, risk_ratio, stop_margin)`.
   * It reads only the portfolio's `total_value`, passed here as `totalValue`,
   * and changes no state. `round(... / risk_per_share)` raises when
   * `stop_margin * atr` is zero.
   */
  function Risk(totalValue: real, price: real, atr: real, riskPerTrade: real, riskRatio: real,
                stopMargin: real := 1.0): Sizing
    requires stopMargin * atr != 0.0
  {
    var riskPerShare := stopMargin * atr;
    var profitPerShare := riskRatio * riskPerShare;
    Sizing(riskPerShare, price - riskPerShare, profitPerShare,
           RoundHalfEven(totalValue * riskPerTrade / riskPerShare), price + profitPerShare)
  }

  /**
   * The sizing `risk` returns: the stop sits `stop_margin * atr` below the
   * price and the target `risk_ratio` times that distance above it; the
   * shares put `risk_per_trade` of the total value at risk, to within half a
   * share, with ties rounded to an even count.
   */
  lemma RiskSizing(totalValue: real, price: real, atr: real, riskPerTrade: real, riskRatio: real, stopMargin: real)
    requires stopMargin * atr != 0.0
    ensures var z := Risk(totalValue, price, atr, riskPerTrade, riskRatio, stopMargin);
      && z.riskPerShare == stopMargin * atr && price - z.stopPrice == z.riskPerShare
      && z.targetPrice - price == riskRatio * (price - z.stopPrice)
      && (stopMargin * atr > 0.0 && riskRatio > 0.0 ==> z.stopPrice < price < z.targetPrice)
      && -0.5 * Abs(z.riskPerShare) <= z.sharesToBuy as real * z.riskPerShare - totalValue * riskPerTrade
                                    <= 0.5 * Abs(z.riskPerShare)
      && var q := totalValue * riskPerTrade / z.riskPerShare;
         (z.sharesToBuy as real - q == 0.5 || q - z.sharesToBuy as real == 0.5) ==> z.sharesToBuy % 2 == 0
  {
    var z := Risk(totalValue, price, atr, riskPerTrade, riskRatio, stopMargin);
    var q := totalValue * riskPerTrade / z.riskPerShare;
    RoundHalfEvenNearest(q);
    ScaleHalf(z.sharesToBuy as real, q, z.riskPerShare);
    assert q * z.riskPerShare == totalValue * riskPerTrade;
    if stopMargin * atr > 0.0 && riskRatio > 0.0 {
      MulPositive(riskRatio, z.riskPerShare);
    }
  }

  lemma MulPositive(a: real, b: real)
    requires a > 0.0 && b > 0.0
    ensures a * b > 0.0
  {
  }

  /** The value of one position: every field a `Position` holds. */
  datatype PositionRecord = PositionRecord(
    ticker: Ticker, nbShares: int, openDate: Date, closeDate: Date,
    openPrice: real, stopLoss: real, targetPrice: real,
    closePrice: real, status: Status, totalReturn: real, realizedPnl: real,
    totalCost: real, marketValue: real)

  /** A position as `Position(...)` and `__post_init__` leave it. */
  function Opened(ticker: Ticker, nbShares: int, openDate: Date, closeDate: Date,
                  openPrice: real, stopLoss: real, targetPrice: real): PositionRecord
  {
    PositionRecord(ticker, nbShares, openDate, closeDate, openPrice, stopLoss, targetPrice,
                   0.0, Open, 0.0, 0.0, openPrice * nbShares as real + Fee, openPrice * nbShares as real)
  }

  /** The cost basis `__post_init__` fixes: the shares at the open price plus one fee. */
  predicate CostBasis(r: PositionRecord)
  {
    r.totalCost == r.openPrice * r.nbShares as real + Fee && r.marketValue == r.openPrice * r.nbShares as real
  }

  /** A position after `close_position(price, date)`. */
  function AfterClose(r: PositionRecord, price: real, date: Date): (c: PositionRecord)
    ensures c.status == Close && c.closePrice == price && c.closeDate == date
    ensures c.realizedPnl == c.totalReturn - c.totalCost && c.totalReturn == price * c.nbShares as real - Fee
    ensures CostBasis(r) ==> CostBasis(c) && c.realizedPnl == (price - r.openPrice) * r.nbShares as real - 2.0 * Fee
    ensures c == r.(status := Close, closeDate := date, closePrice := price,
                    totalReturn := c.totalReturn, realizedPnl := c.realizedPnl)
  {
    var totalReturn := price * r.nbShares as real - Fee;
    r.(status := Close, closeDate := date, closePrice := price,
       totalReturn := totalReturn, realizedPnl := totalReturn - r.totalCost)
  }

  /** A freshly opened position holds its cost basis and nothing realised yet. */
  lemma OpenedFresh(ticker: Ticker, nbShares: int, openDate: Date, closeDate: Date,
                    openPrice: real, stopLoss: real, targetPrice: real)
    ensures var r := Opened(ticker, nbShares, openDate, closeDate, openPrice, stopLoss, targetPrice);
            CostBasis(r) && r.status == Open && r.closePrice == 0.0 && r.realizedPnl == 0.0 && r.totalReturn == 0.0
            && r.totalCost - r.marketValue == Fee
  {
  }

  /** `close_position` has no re-close guard: repeating it with the same arguments changes nothing more. */
  lemma CloseIdempotent(r: PositionRecord, price: real, date: Date)
    ensures AfterClose(AfterClose(r, price, date), price, date) == AfterClose(r, price, date)
  {
  }

  /**
   * Over a whole lifecycle as the backtest books it (debit `total_cost` on
   * opening, credit `realized_pnl` on closing) cash moves by
   * (price - open_price) * shares - 3 * fee - open_price * shares: the cost
   * basis is taken twice, once in the debit and once inside `realized_pnl`.
   */
  lemma LifecycleCash(r: PositionRecord, price: real, date: Date)
    requires CostBasis(r)
    ensures -r.totalCost + AfterClose(r, price, date).realizedPnl
            == price * r.nbShares as real - r.openPrice * r.nbShares as real - 3.0 * Fee - r.openPrice * r.nbShares as real
  {
  }

  /** `Portfolio`: a named account whose total is fixed at construction as market + cash. */
  class Portfolio {
    const name: string
    const openDate: Date
    var cashValue: real
    var marketValue: real
    var totalValue: real

    /** The dataclass initialiser followed by `__post_init__`. */
    constructor (name: string, openDate: Date, cashValue: real := 4000.0, marketValue: real := 0.0)
      ensures this.name == name && this.openDate == openDate
      ensures this.cashValue == cashValue && this.marketValue == marketValue
      ensures totalValue == marketValue + cashValue
    {
      this.name := name;
      this.openDate := openDate;
      this.cashValue := cashValue;
      this.marketValue := marketValue;
      totalValue := marketValue + cashValue;
    }
  }

  /**
   * `Position`: one trade. The fields the source never reassigns after
   * construction are constants; `close_position` updates the others.
   */
  class Position {
    const ticker: Ticker
    const nbShares: int
    const openDate: Date
    const openPrice: real
    const stopLoss: real
    const targetPrice: real
    const totalCost: real
    const marketValue: real
    var closeDate: Date
    var closePrice: real
    var status: Status
    var totalReturn: real
    var realizedPnl: real

    function State(): PositionRecord
      reads this
    {
      PositionRecord(ticker, nbShares, openDate, closeDate, openPrice, stopLoss, targetPrice,
                     closePrice, status, totalReturn, realizedPnl, totalCost, marketValue)
    }

    /** The dataclass initialiser (default close price, status and P&L) followed by `__post_init__`. */
    constructor (ticker: Ticker, nbShares: int, openDate: Date, closeDate: Date,
                 openPrice: real, stopLoss: real, targetPrice: real)
      ensures State() == Opened(ticker, nbShares, openDate, closeDate, openPrice, stopLoss, targetPrice)
      ensures this.totalCost == openPrice * nbShares as real + Fee && this.marketValue == openPrice * nbShares as real
      ensures status == Open && closePrice == 0.0 && realizedPnl == 0.0 && totalReturn == 0.0
    {
      this.ticker := ticker;
      this.nbShares := nbShares;
      this.openDate := openDate;
      this.closeDate := closeDate;
      this.openPrice := openPrice;
      this.stopLoss := stopLoss;
      this.targetPrice := targetPrice;
      closePrice := 0.0;
      status := Open;
      totalReturn := 0.0;
      realizedPnl := 0.0;
      totalCost := openPrice * nbShares as real + Fee;
      this.marketValue := openPrice * nbShares as real;
    }

    /** `close_position(price, data_date)`. */
    method ClosePosition(price: real, date: Date)
      modifies this
      ensures State() == AfterClose(old(State()), price, date)
      ensures status == Close && closeDate == date && closePrice == price
      ensures totalReturn == price * nbShares as real - Fee && realizedPnl == totalReturn - totalCost
    {
      status := Close;
      closeDate := date;
      closePrice := price;
      totalReturn := price * nbShares as real - Fee;
      realizedPnl := totalReturn - totalCost;
    }
  }
}
