/** The pure part of the root component (App.tsx): the watchlist and journal
    list updates its handlers apply, the memoised views derived from its
    state (displayed liquidity, open-position tickers, the intel ticker set)
    and the ticker banner's list, with the lemmas that relate them. */
module AppViews {
  import opened Wrappers
  import opened Types

  // ---------------------------------------------------------------------
  // Watchlist
  // ---------------------------------------------------------------------

  /** No ticker occurs twice. */
  predicate NoDuplicates(s: seq<string>) {
    forall i, j :: 0 <= i < j < |s| ==> s[i] != s[j]
  }

  /** Watchlist insertion: a ticker already present leaves the list as it
      is; a new one goes at the end. */
  function WithTicker(watchlist: seq<string>, t: string): (r: seq<string>)
    ensures r == watchlist <==> t in watchlist
    ensures |watchlist| <= |r| <= |watchlist| + 1
    ensures r[..|watchlist|] == watchlist
    ensures |r| == |watchlist| + 1 ==> r[|watchlist|] == t
    ensures forall x :: x in r <==> x in watchlist || x == t
    ensures NoDuplicates(watchlist) ==> NoDuplicates(r)
  {
    if t in watchlist then watchlist else watchlist + [t]
  }

  /** Removal keeps every other ticker, in order, and drops every copy of t. */
  function WithoutTicker(watchlist: seq<string>, t: string): (r: seq<string>)
    ensures forall x :: x in r <==> x in watchlist && x != t
    ensures |r| <= |watchlist|
    ensures NoDuplicates(watchlist) ==> NoDuplicates(r)
  {
    if watchlist == [] then []
    else
      var rest := WithoutTicker(watchlist[1..], t);
      assert NoDuplicates(watchlist) ==> NoDuplicates([watchlist[0]] + rest) by {
        if NoDuplicates(watchlist) {
          assert NoDuplicates(watchlist[1..]);
          assert watchlist[0] !in watchlist[1..];
          ConsNoDuplicates(watchlist[0], rest);
        }
      }
      (if watchlist[0] == t then [] else [watchlist[0]]) + rest
  }

  /** A new ticker in front of a list without duplicates keeps it so. */
  lemma ConsNoDuplicates(x: string, s: seq<string>)
    requires x !in s && NoDuplicates(s)
    ensures NoDuplicates([x] + s)
  {
  }

  /** Adding twice is adding once. */
  lemma WithTickerIdempotent(watchlist: seq<string>, t: string)
    ensures WithTicker(WithTicker(watchlist, t), t) == WithTicker(watchlist, t)
  {
  }

  /** Removal works element by element, so it keeps relative order. */
  lemma {:induction false} WithoutTickerAppend(a: seq<string>, b: seq<string>, t: string)
    ensures WithoutTicker(a + b, t) == WithoutTicker(a, t) + WithoutTicker(b, t)
  {
    if a == [] {
      assert a + b == b;
    } else {
      assert (a + b)[0] == a[0];
      assert (a + b)[1..] == a[1..] + b;
      WithoutTickerAppend(a[1..], b, t);
    }
  }

  /** Removing an absent ticker changes nothing. */
  lemma {:induction false} WithoutAbsent(watchlist: seq<string>, t: string)
    requires t !in watchlist
    ensures WithoutTicker(watchlist, t) == watchlist
  {
    if watchlist != [] {
      assert watchlist == [watchlist[0]] + watchlist[1..];
      WithoutAbsent(watchlist[1..], t);
    }
  }

  /** Removing a ticker undoes adding it, when it was new. */
  lemma RemoveUndoesAdd(watchlist: seq<string>, t: string)
    requires t !in watchlist
    ensures WithoutTicker(WithTicker(watchlist, t), t) == watchlist
  {
    WithoutTickerAppend(watchlist, [t], t);
    WithoutAbsent(watchlist, t);
    assert WithoutTicker([t], t) == [];
  }

  /** After removal, adding the ticker back puts it at the end. */
  lemma AddAfterRemove(watchlist: seq<string>, t: string)
    ensures WithTicker(WithoutTicker(watchlist, t), t) == WithoutTicker(watchlist, t) + [t]
  {
  }

  // ---------------------------------------------------------------------
  // Journal
  // ---------------------------------------------------------------------

  /** `t.creditReceived || 0` */
  function CreditOf(t: LoggedTrade): real {
    t.creditReceived.GetOr(0.0)
  }

  /** `loggedTrades.filter(t => t.status === 'Open')` */
  function OpenTrades(ts: seq<LoggedTrade>): (r: seq<LoggedTrade>)
    ensures forall t :: t in r <==> t in ts && t.status == Open
    ensures |r| <= |ts|
  {
    if ts == [] then []
    else (if ts[0].status == Open then [ts[0]] else []) + OpenTrades(ts[1..])
  }

  /** Filtering works trade by trade, so it keeps journal order and every
      copy of an open trade. */
  lemma {:induction false} OpenTradesAppend(a: seq<LoggedTrade>, b: seq<LoggedTrade>)
    ensures OpenTrades(a + b) == OpenTrades(a) + OpenTrades(b)
  {
    if a == [] {
      assert a + b == b;
    } else {
      assert (a + b)[0] == a[0];
      assert (a + b)[1..] == a[1..] + b;
      OpenTradesAppend(a[1..], b);
    }
  }

  /** `.reduce((sum, t) => sum + (t.creditReceived || 0), 0)`: a sum of
      credits, never negative when no credit is. */
  function TotalCredit(ts: seq<LoggedTrade>): (r: real)
    ensures (forall t :: t in ts ==> CreditOf(t) >= 0.0) ==> r >= 0.0
  {
    if ts == [] then 0.0
    else
      assert forall t :: t in ts[1..] ==> t in ts;
      CreditOf(ts[0]) + TotalCredit(ts[1..])
  }

  /** The sum splits over concatenation. */
  lemma {:induction false} TotalCreditAppend(a: seq<LoggedTrade>, b: seq<LoggedTrade>)
    ensures TotalCredit(a + b) == TotalCredit(a) + TotalCredit(b)
  {
    if a == [] {
      assert a + b == b;
    } else {
      assert (a + b)[0] == a[0];
      assert (a + b)[1..] == a[1..] + b;
      TotalCreditAppend(a[1..], b);
    }
  }

  /** The credit of the open trades: none when no trade is open. */
  function OpenCredit(ts: seq<LoggedTrade>): (r: real)
    ensures (forall t :: t in ts ==> t.status != Open) ==> r == 0.0
  {
    var open := OpenTrades(ts);
    assert (forall t :: t in ts ==> t.status != Open) ==> open == [] by {
      if open != [] { assert open[0] in open; }
    }
    TotalCredit(open)
  }

  /** The open credit of two journals put together is the sum of theirs. */
  lemma OpenCreditAppend(a: seq<LoggedTrade>, b: seq<LoggedTrade>)
    ensures OpenCredit(a + b) == OpenCredit(a) + OpenCredit(b)
  {
    OpenTradesAppend(a, b);
    TotalCreditAppend(OpenTrades(a), OpenTrades(b));
  }

  /** `.map(t => t.ticker)` */
  function TickersOf(ts: seq<LoggedTrade>): (r: seq<string>)
    ensures |r| == |ts|
    ensures forall i :: 0 <= i < |ts| ==> r[i] == ts[i].ticker
  {
    if ts == [] then [] else [ts[0].ticker] + TickersOf(ts[1..])
  }

  /** Mapping works trade by trade. */
  lemma {:induction false} TickersOfAppend(a: seq<LoggedTrade>, b: seq<LoggedTrade>)
    ensures TickersOf(a + b) == TickersOf(a) + TickersOf(b)
  {
    if a == [] {
      assert a + b == b;
    } else {
      assert (a + b)[0] == a[0];
      assert (a + b)[1..] == a[1..] + b;
      TickersOfAppend(a[1..], b);
    }
  }

  /** `openPositionTickers`: the tickers of the open trades, in journal order. */
  function OpenPositionTickers(ts: seq<LoggedTrade>): (r: seq<string>)
    ensures forall x :: x in r <==> exists t :: t in ts && t.status == Open && t.ticker == x
  {
    var open := OpenTrades(ts);
    var r := TickersOf(open);
    assert forall t :: t in open ==> t.ticker in r by {
      forall t | t in open ensures t.ticker in r {
        var i :| 0 <= i < |open| && open[i] == t;
        assert r[i] == t.ticker;
      }
    }
    r
  }

  /** The open-position tickers keep journal order and repeat a ticker once
      per open trade that carries it. */
  lemma OpenPositionTickersAppend(a: seq<LoggedTrade>, b: seq<LoggedTrade>)
    ensures OpenPositionTickers(a + b) == OpenPositionTickers(a) + OpenPositionTickers(b)
  {
    OpenTradesAppend(a, b);
    TickersOfAppend(OpenTrades(a), OpenTrades(b));
  }

  /** `currentLiquidity`: the synced balance when a broker session has one,
      else the baseline plus the credit of the open trades. */
  function Liquidity(session: Option<BrokerSession>, synced: Option<real>, baseline: real,
                     ts: seq<LoggedTrade>): (r: real)
    ensures session.Some? && synced.Some? ==> r == synced.value
    ensures session.None? || synced.None? ==> r == baseline + OpenCredit(ts)
    ensures session.None? && (forall t :: t in ts ==> t.status != Open) ==> r == baseline
  {
    if session.Some? && synced.Some? then synced.value else baseline + OpenCredit(ts)
  }

  /** `onUpdateStatus`: the trades whose id matches take the new status. */
  function WithStatus(ts: seq<LoggedTrade>, id: string, s: TradeStatus): (r: seq<LoggedTrade>)
    ensures |r| == |ts|
    ensures forall i :: 0 <= i < |ts| ==>
      r[i] == if ts[i].id == id then ts[i].(status := s) else ts[i]
  {
    if ts == [] then []
    else [if ts[0].id == id then ts[0].(status := s) else ts[0]] + WithStatus(ts[1..], id, s)
  }

  /** Every trade carries its own id. */
  predicate DistinctIds(ts: seq<LoggedTrade>) {
    forall i, j :: 0 <= i < j < |ts| ==> ts[i].id != ts[j].id
  }

  /** No trade in the journal carries this id. */
  predicate IdUnused(ts: seq<LoggedTrade>, id: string) {
    forall t :: t in ts ==> t.id != id
  }

  /** The trade `finalizeLogging` prepends: ticker, strategy and sentiment
      from the analysis, the rest from the commit form, status Open. */
  function NewTrade(a: TradeAnalysis, d: LoggingDetails, id: string, openDate: string): (r: LoggedTrade)
    ensures r.id == id && r.openDate == openDate && r.status == Open
    ensures r.ticker == a.ticker && r.strategy == a.strategy && r.sentiment == SentimentName(a.sentiment)
    ensures r.dte == d.dte && r.gtcOrder == d.gtc && r.profitTarget == d.profitTarget
    ensures CreditOf(r) == d.creditReceived
  {
    LoggedTrade(id, a.ticker, a.strategy, d.dte, openDate, Open, d.gtc, d.profitTarget,
                SentimentName(a.sentiment), Some(d.creditReceived))
  }

  /** What a trade with status `st` contributes to the open credit. */
  function CreditIfOpen(st: TradeStatus, t: LoggedTrade): real {
    if st == Open then CreditOf(t) else 0.0
  }

  /** The open credit of a journal with one more trade in front. */
  lemma OpenCreditCons(t: LoggedTrade, ts: seq<LoggedTrade>)
    ensures OpenCredit([t] + ts) == CreditIfOpen(t.status, t) + OpenCredit(ts)
  {
    var all := [t] + ts;
    assert all[0] == t && all[1..] == ts;
    if t.status == Open {
      var o := OpenTrades(all);
      assert o == [t] + OpenTrades(ts);
      assert o[0] == t && o[1..] == OpenTrades(ts);
    } else {
      assert OpenTrades(all) == OpenTrades(ts);
    }
  }

  /** A status update whose id names no trade changes nothing. */
  lemma WithStatusAbsent(ts: seq<LoggedTrade>, id: string, s: TradeStatus)
    requires forall t :: t in ts ==> t.id != id
    ensures WithStatus(ts, id, s) == ts
  {
  }

  /** A status update applied to a journal with one more trade in front. */
  lemma WithStatusCons(t: LoggedTrade, ts: seq<LoggedTrade>, id: string, s: TradeStatus)
    ensures WithStatus([t] + ts, id, s)
         == [if t.id == id then t.(status := s) else t] + WithStatus(ts, id, s)
  {
  }

  /** Changing the status of trade k (ids distinct) moves the open credit by
      exactly that trade's credit: down when it leaves Open, up when it
      enters it. */
  lemma {:induction false} StatusChangeCredit(ts: seq<LoggedTrade>, k: nat, s: TradeStatus)
    requires k < |ts| && DistinctIds(ts)
    ensures OpenCredit(WithStatus(ts, ts[k].id, s)) + CreditIfOpen(ts[k].status, ts[k])
         == OpenCredit(ts) + CreditIfOpen(s, ts[k])
  {
    var id := ts[k].id;
    var rest := ts[1..];
    assert ts == [ts[0]] + rest;
    WithStatusCons(ts[0], rest, id, s);
    OpenCreditCons(ts[0], rest);
    if k == 0 {
      RestIdsDiffer(ts);
      WithStatusAbsent(rest, id, s);
      OpenCreditCons(ts[0].(status := s), rest);
    } else {
      assert ts[0].id != id;
      assert rest[k - 1] == ts[k];
      assert DistinctIds(rest);
      StatusChangeCredit(rest, k - 1, s);
      OpenCreditCons(ts[0], WithStatus(rest, id, s));
    }
  }

  /** With distinct ids, no later trade shares the first trade's id. */
  lemma RestIdsDiffer(ts: seq<LoggedTrade>)
    requires |ts| > 0 && DistinctIds(ts)
    ensures forall t :: t in ts[1..] ==> t.id != ts[0].id
  {
  }

  /** With no broker session, closing or discarding an open trade lowers
      the displayed liquidity by exactly that trade's credit. */
  lemma LiquidityAfterClose(synced: Option<real>, baseline: real, ts: seq<LoggedTrade>,
                            k: nat, s: TradeStatus)
    requires k < |ts| && DistinctIds(ts)
    requires ts[k].status == Open && s != Open
    ensures Liquidity(None, synced, baseline, WithStatus(ts, ts[k].id, s))
         == Liquidity(None, synced, baseline, ts) - CreditOf(ts[k])
  {
    StatusChangeCredit(ts, k, s);
  }

  /** With no broker session, the displayed liquidity is the baseline plus
      the credit of every open trade, and committing a trade raises it by
      the committed credit. */
  lemma LiquidityAfterCommit(synced: Option<real>, baseline: real, ts: seq<LoggedTrade>,
                             a: TradeAnalysis, d: LoggingDetails, id: string, openDate: string)
    ensures Liquidity(None, synced, baseline, [NewTrade(a, d, id, openDate)] + ts)
         == Liquidity(None, synced, baseline, ts) + d.creditReceived
  {
  }

  /** Committing a trade and then discarding or closing it (its id new to
      the journal) leaves the displayed liquidity where it was. */
  lemma CommitThenCloseRestoresLiquidity(synced: Option<real>, baseline: real, ts: seq<LoggedTrade>,
                                         a: TradeAnalysis, d: LoggingDetails, id: string,
                                         openDate: string, s: TradeStatus)
    requires IdUnused(ts, id) && s != Open
    ensures Liquidity(None, synced, baseline, WithStatus([NewTrade(a, d, id, openDate)] + ts, id, s))
         == Liquidity(None, synced, baseline, ts)
  {
    var n := NewTrade(a, d, id, openDate);
    WithStatusCons(n, ts, id, s);
    WithStatusAbsent(ts, id, s);
    OpenCreditCons(n.(status := s), ts);
  }

  /** With a broker session and a synced balance, the displayed liquidity
      is that balance whatever the journal holds. */
  lemma LiquidityWithSession(session: BrokerSession, synced: real, baseline: real,
                             ts: seq<LoggedTrade>, ts': seq<LoggedTrade>)
    ensures Liquidity(Some(session), Some(synced), baseline, ts) == synced
    ensures Liquidity(Some(session), Some(synced), baseline, ts)
         == Liquidity(Some(session), Some(synced), baseline, ts')
  {
  }

  /** A committed trade is open, so its ticker leads the open tickers. */
  lemma CommitOpenTickers(a: TradeAnalysis, d: LoggingDetails, id: string, openDate: string,
                          ts: seq<LoggedTrade>)
    ensures OpenPositionTickers([NewTrade(a, d, id, openDate)] + ts) == [a.ticker] + OpenPositionTickers(ts)
  {
  }

  /** Closing or discarding leaves among the open trades exactly those
      whose id differs. */
  lemma OpenTradesAfterClose(ts: seq<LoggedTrade>, id: string, s: TradeStatus)
    requires s != Open
    ensures forall t :: t in OpenTrades(WithStatus(ts, id, s)) <==> t in OpenTrades(ts) && t.id != id
  {
  }

  /** Closing the only open trade on a ticker removes that ticker from the
      open-position tickers. */
  lemma CloseRemovesTicker(ts: seq<LoggedTrade>, k: nat, s: TradeStatus)
    requires k < |ts| && s != Open
    requires forall t :: t in ts && t.status == Open && t.ticker == ts[k].ticker ==> t.id == ts[k].id
    ensures ts[k].ticker !in OpenPositionTickers(WithStatus(ts, ts[k].id, s))
  {
  }

  // ---------------------------------------------------------------------
  // Intel ticker set
  // ---------------------------------------------------------------------

  /** `Array.from(new Set(s))`: the first occurrence of each ticker, in order.
      Inserting into a JavaScript Set is watchlist insertion. */
  function Dedup(s: seq<string>): (r: seq<string>)
    ensures NoDuplicates(r)
    ensures forall x :: x in r <==> x in s
    ensures |r| <= |s|
    decreases |s|
  {
    if s == [] then [] else WithTicker(Dedup(s[..|s| - 1]), s[|s| - 1])
  }

  /** `allIntelTickers`: the watchlist followed by the open-position tickers
      it lacks, each once. */
  function AllIntelTickers(watchlist: seq<string>, ts: seq<LoggedTrade>): (r: seq<string>)
    ensures NoDuplicates(r)
    ensures forall x :: x in r <==> x in watchlist || x in OpenPositionTickers(ts)
  {
    Dedup(watchlist + OpenPositionTickers(ts))
  }

  /** A list without duplicates is its own deduplication. */
  lemma {:induction false} DedupDistinct(s: seq<string>)
    requires NoDuplicates(s)
    ensures Dedup(s) == s
  {
    if s != [] {
      var init := s[..|s| - 1];
      assert NoDuplicates(init);
      DedupDistinct(init);
      assert s[|s| - 1] !in init;
      assert init + [s[|s| - 1]] == s;
    }
  }

  /** Deduplicating a longer list extends the deduplication of its prefix. */
  lemma {:induction false} DedupPrefix(a: seq<string>, b: seq<string>)
    ensures |Dedup(a)| <= |Dedup(a + b)|
    ensures Dedup(a + b)[..|Dedup(a)|] == Dedup(a)
    decreases |b|
  {
    if b == [] {
      assert a + b == a;
    } else {
      var b' := b[..|b| - 1];
      assert (a + b)[..|a + b| - 1] == a + b';
      assert (a + b)[|a + b| - 1] == b[|b| - 1];
      DedupPrefix(a, b');
    }
  }

  /** Deduplication takes one more element at the end as an insertion. */
  lemma DedupSnoc(s: seq<string>, y: string)
    ensures Dedup(s + [y]) == WithTicker(Dedup(s), y)
  {
  }

  /** One inductive step of DedupCons: inserting y on both sides. */
  lemma InsertAfterFront(x: string, d: seq<string>, y: string)
    ensures WithTicker([x] + WithoutTicker(d, x), y) == [x] + WithoutTicker(WithTicker(d, y), x)
  {
    var w := WithoutTicker(d, x);
    if y == x {
      assert y in [x] + w;
      if x !in d {
        WithoutTickerAppend(d, [x], x);
        assert WithoutTicker([x], x) == [];
        assert w + [] == w;
      }
    } else if y in d {
      assert y in w;
      assert y in [x] + w;
    } else {
      assert y !in [x] + w;
      WithoutTickerAppend(d, [y], x);
      assert WithoutTicker([y], x) == [y];
      assert [x] + w + [y] == [x] + (w + [y]);
    }
  }

  /** The first element is kept and its later copies are dropped: the
      first-occurrence reading of `new Set(...)`. */
  lemma {:induction false} DedupCons(x: string, t: seq<string>)
    ensures Dedup([x] + t) == [x] + WithoutTicker(Dedup(t), x)
    decreases |t|
  {
    if t == [] {
      assert [x] + t == [] + [x];
      DedupSnoc([], x);
    } else {
      var t' := t[..|t| - 1];
      var y := t[|t| - 1];
      assert t == t' + [y];
      assert [x] + t == ([x] + t') + [y];
      DedupCons(x, t');
      DedupSnoc([x] + t', y);
      DedupSnoc(t', y);
      InsertAfterFront(x, Dedup(t'), y);
    }
  }

  /** A watchlist without duplicates comes first, unchanged, in the intel set. */
  lemma IntelWatchlistFirst(watchlist: seq<string>, ts: seq<LoggedTrade>)
    requires NoDuplicates(watchlist)
    ensures |watchlist| <= |AllIntelTickers(watchlist, ts)|
    ensures AllIntelTickers(watchlist, ts)[..|watchlist|] == watchlist
  {
    DedupPrefix(watchlist, OpenPositionTickers(ts));
    DedupDistinct(watchlist);
  }

  /** Removing a ticker from the intel list only filters the watchlist, so a
      ticker an open trade holds stays listed. */
  lemma RemoveKeepsOpenTicker(watchlist: seq<string>, ts: seq<LoggedTrade>, t: string)
    requires t in OpenPositionTickers(ts)
    ensures t in AllIntelTickers(WithoutTicker(watchlist, t), ts)
  {
  }

  // ---------------------------------------------------------------------
  // Ticker banner
  // ---------------------------------------------------------------------

  /** The banner's fallback when no trends have arrived. */
  const DefaultTrends: seq<TickerTrend> := [
    TickerTrend("SPY", "+0.12%", Neutral, ""),
    TickerTrend("QQQ", "+0.45%", Bullish, ""),
    TickerTrend("NVDA", "+1.20%", Bullish, ""),
    TickerTrend("IWM", "-0.30%", Bearish, "")
  ]

  /** `displayTrends` */
  function DisplayTrends(trends: seq<TickerTrend>): (r: seq<TickerTrend>)
    ensures |r| > 0
    ensures |trends| > 0 ==> r == trends
  {
    if |trends| > 0 then trends else DefaultTrends
  }

  /** The marquee's buttons: three copies of the displayed trends, each
      position of a copy showing the same trend. */
  function BannerItems(trends: seq<TickerTrend>): (r: seq<TickerTrend>)
    ensures |r| == 3 * |DisplayTrends(trends)|
    ensures forall i :: 0 <= i < |DisplayTrends(trends)| ==>
      var n := |DisplayTrends(trends)|;
      r[i] == DisplayTrends(trends)[i] && r[i + n] == r[i] && r[i + 2 * n] == r[i]
  {
    var d := DisplayTrends(trends);
    d + d + d
  }

  /** With no trends the banner cycles SPY, QQQ, NVDA, IWM three times. */
  lemma DefaultBanner()
    ensures |BannerItems([])| == 12
    ensures forall i :: 0 <= i < 12 ==>
      BannerItems([])[i].symbol == ["SPY", "QQQ", "NVDA", "IWM", "SPY", "QQQ", "NVDA", "IWM",
                                    "SPY", "QQQ", "NVDA", "IWM"][i]
  {
  }
}
