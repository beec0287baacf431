/** The root component of App.tsx as an object: its state fields and the
    handlers that replace them. Remote calls (image analysis, scans, the
    outlook, management advice, trends) are split into the handler's
    synchronous start and a completion that receives the call's outcome
    (None for a failure); completions may arrive in any order, as the
    source's unco-ordinated requests do. */
module AppState {
  import opened Wrappers
  import opened Types
  import opened AppViews

  const DefaultBaseline: real := 45000.0
  const DefaultWatchlist: seq<string> := ["SPY", "QQQ", "NVDA", "IWM"]

  /** `saved ? ... : default`: a missing entry and an empty string both read
      as nothing stored. */
  predicate IsStored(saved: Option<string>) {
    saved.Some? && saved.value != ""
  }

  class App {
    var activeTab: Tab
    var status: AnalysisStatus
    var analysis: Option<TradeAnalysis>
    var proactiveOpps: seq<TacticalOpportunity>
    var selectedStrategy: string
    var alerts: seq<MarketAlert>
    var trends: seq<TickerTrend>
    var baselineBalance: real
    var isBalanceModalOpen: bool
    var syncedBalance: Option<real>
    var brokerSession: Option<BrokerSession>
    var loggedTrades: seq<LoggedTrade>
    var isLoggingModalOpen: bool
    var loggingDetails: LoggingDetails
    var watchlist: seq<string>
    var newTicker: string
    var marketOutlook: Option<MarketOutlook>
    var managementAdvice: Option<ManagementAdvice>
    var isManaging: bool
    var currentManagingTrade: Option<LoggedTrade>

    /** What every handler keeps: nothing in the component ever establishes
        a broker session or a synced balance, and the commit form only ever
        edits its credit, so GTC, the 50% target and 45 DTE stay as set. */
    ghost predicate Valid()
      reads this
    {
      && brokerSession.None? && syncedBalance.None?
      && loggingDetails.gtc && loggingDetails.profitTarget == 50 && loggingDetails.dte == 45
    }

    /** Initial state, with the three stored entries and what parsing them
        gave passed in. */
    constructor (savedJournal: Option<string>, parsedJournal: seq<LoggedTrade>,
                 savedBaseline: Option<string>, parsedBaseline: real,
                 savedWatchlist: Option<string>, parsedWatchlist: seq<string>)
      ensures Valid()
      ensures loggedTrades == if IsStored(savedJournal) then parsedJournal else []
      ensures baselineBalance == if IsStored(savedBaseline) then parsedBaseline else DefaultBaseline
      ensures watchlist == if IsStored(savedWatchlist) then parsedWatchlist else DefaultWatchlist
      ensures activeTab == AuditTab && status == Idle && analysis.None?
      ensures proactiveOpps == [] && alerts == [] && trends == [] && newTicker == ""
      ensures selectedStrategy == "Put Selling"
      ensures loggingDetails == LoggingDetails(true, 50, 0.0, 45)
      ensures !isBalanceModalOpen && !isLoggingModalOpen && !isManaging
      ensures marketOutlook.None? && managementAdvice.None? && currentManagingTrade.None?
    {
      activeTab := AuditTab;
      status := Idle;
      analysis := None;
      proactiveOpps := [];
      selectedStrategy := "Put Selling";
      alerts := [];
      trends := [];
      baselineBalance := if IsStored(savedBaseline) then parsedBaseline else DefaultBaseline;
      isBalanceModalOpen := false;
      syncedBalance := None;
      brokerSession := None;
      loggedTrades := if IsStored(savedJournal) then parsedJournal else [];
      isLoggingModalOpen := false;
      loggingDetails := LoggingDetails(true, 50, 0.0, 45);
      watchlist := if IsStored(savedWatchlist) then parsedWatchlist else DefaultWatchlist;
      newTicker := "";
      marketOutlook := None;
      managementAdvice := None;
      isManaging := false;
      currentManagingTrade := None;
    }

    /** `currentLiquidity` as this component can show it: with no session
        ever set, the baseline plus the credit of the open trades. */
    function CurrentLiquidity(): (r: real)
      reads this
      requires Valid()
      ensures r == baselineBalance + OpenCredit(loggedTrades)
    {
      Liquidity(brokerSession, syncedBalance, baselineBalance, loggedTrades)
    }

    // ------------------------------------------------------------------
    // Navigation
    // ------------------------------------------------------------------

    /** A tab button: switch tab and drop back to idle. */
    method SelectTab(tab: Tab)
      modifies this`activeTab, this`status
      ensures activeTab == tab && status == Idle
    {
      activeTab := tab;
      status := Idle;
    }

    /** A banner ticker: open the intel tab and watch the ticker. The status
        is left as it is. */
    method ClickBannerTicker(t: string)
      modifies this`activeTab, this`watchlist
      ensures activeTab == IntelligenceTab
      ensures watchlist == WithTicker(old(watchlist), t)
    {
      activeTab := IntelligenceTab;
      if t !in watchlist {
        watchlist := watchlist + [t];
      }
    }

    // ------------------------------------------------------------------
    // Watchlist
    // ------------------------------------------------------------------

    /** The ticker input; the caller passes the already upper-cased text. */
    method EditNewTicker(upper: string)
      modifies this`newTicker
      ensures newTicker == upper
    {
      newTicker := upper;
    }

    /** Enter or the plus button: an empty input does nothing; otherwise the
        ticker is watched (once) and the input cleared. */
    method AddTicker()
      modifies this`watchlist, this`newTicker
      ensures old(newTicker) == "" ==> watchlist == old(watchlist) && newTicker == ""
      ensures old(newTicker) != "" ==> watchlist == WithTicker(old(watchlist), old(newTicker))
      ensures newTicker == ""
    {
      if newTicker != "" {
        if newTicker !in watchlist {
          watchlist := watchlist + [newTicker];
        }
        newTicker := "";
      }
    }

    /** The remove button of an intel ticker: every copy leaves the watchlist. */
    method RemoveTicker(t: string)
      modifies this`watchlist
      ensures watchlist == WithoutTicker(old(watchlist), t)
    {
      watchlist := WithoutTicker(watchlist, t);
    }

    // ------------------------------------------------------------------
    // Journal
    // ------------------------------------------------------------------

    /** `onUpdateStatus`: only the trades with this id take the new status. */
    method UpdateStatus(id: string, s: TradeStatus)
      modifies this`loggedTrades
      ensures loggedTrades == WithStatus(old(loggedTrades), id, s)
    {
      loggedTrades := WithStatus(loggedTrades, id, s);
    }

    /** `onClear`: wipe the journal once the user confirms. */
    method ClearJournal(confirmed: bool)
      modifies this`loggedTrades
      ensures loggedTrades == if confirmed then [] else old(loggedTrades)
    {
      if confirmed {
        loggedTrades := [];
      }
    }

    /** "Log Result" opens the commit form; "Abort" closes it. */
    method SetLoggingModal(open: bool)
      modifies this`isLoggingModalOpen
      ensures isLoggingModalOpen == open
    {
      isLoggingModalOpen := open;
    }

    /** The credit field: `parseFloat(value) || 0` (None: not a number). */
    method SetCredit(parsed: Option<real>)
      requires Valid()
      modifies this`loggingDetails
      ensures Valid()
      ensures loggingDetails == old(loggingDetails).(creditReceived := parsed.GetOr(0.0))
    {
      loggingDetails := loggingDetails.(creditReceived := parsed.GetOr(0.0));
    }

    /** `finalizeLogging`: without an analysis nothing happens; otherwise one
        open trade built from the analysis and the form goes in front of the
        journal, the analysis is cleared, the form closes and the journal
        tab opens. `id` and `openDate` stand for the random id and the clock. */
    method FinalizeLogging(id: string, openDate: string)
      requires Valid()
      modifies this`loggedTrades, this`isLoggingModalOpen, this`analysis, this`activeTab
      ensures old(analysis).None? ==>
        && loggedTrades == old(loggedTrades) && analysis.None?
        && isLoggingModalOpen == old(isLoggingModalOpen) && activeTab == old(activeTab)
      ensures old(analysis).Some? ==>
        && loggedTrades == [NewTrade(old(analysis).value, loggingDetails, id, openDate)] + old(loggedTrades)
        && loggedTrades[0].status == Open && loggedTrades[0].dte == 45 && loggedTrades[0].gtcOrder
        && analysis.None? && !isLoggingModalOpen && activeTab == JournalTab
    {
      if analysis.Some? {
        var newTrade := NewTrade(analysis.value, loggingDetails, id, openDate);
        loggedTrades := [newTrade] + loggedTrades;
        isLoggingModalOpen := false;
        analysis := None;
        activeTab := JournalTab;
      }
    }

    /** `resetAnalysis` */
    method ResetAnalysis()
      modifies this`analysis, this`proactiveOpps, this`status
      ensures analysis.None? && proactiveOpps == [] && status == Idle
    {
      analysis := None;
      proactiveOpps := [];
      status := Idle;
    }

    /** "Sync Baseline": `parseFloat(tempBalance) || 0`, then close the dialog. */
    method SyncBaseline(parsed: Option<real>)
      modifies this`baselineBalance, this`isBalanceModalOpen
      ensures baselineBalance == parsed.GetOr(0.0) && !isBalanceModalOpen
    {
      baselineBalance := parsed.GetOr(0.0);
      isBalanceModalOpen := false;
    }

    /** The wallet button opens the baseline dialog. */
    method OpenBalanceModal()
      modifies this`isBalanceModalOpen
      ensures isBalanceModalOpen
    {
      isBalanceModalOpen := true;
    }

    // ------------------------------------------------------------------
    // Remote calls
    // ------------------------------------------------------------------

    method SelectStrategy(strategy: string)
      modifies this`selectedStrategy
      ensures selectedStrategy == strategy
    {
      selectedStrategy := strategy;
    }

    /** `performAnalysis`, up to the request: an empty upload changes
        nothing; otherwise the status turns busy and the selected strategy
        is what goes out with the images. */
    method StartAnalysis(fileCount: nat) returns (request: Option<string>)
      modifies this`status
      ensures request.Some? <==> fileCount > 0
      ensures fileCount == 0 ==> status == old(status)
      ensures fileCount > 0 ==> status == Analyzing && request.value == selectedStrategy
    {
      if fileCount == 0 {
        return None;
      }
      status := Analyzing;
      request := Some(selectedStrategy);
    }

    /** Completion of `performAnalysis`: the analysis and idle, or an error
        that keeps the previous analysis. */
    method FinishAnalysis(result: Option<TradeAnalysis>)
      modifies this`analysis, this`status
      ensures result.Some? ==> analysis == result && status == Idle
      ensures result.None? ==> analysis == old(analysis) && status == Error
    {
      if result.Some? {
        analysis := result;
        status := Idle;
      } else {
        status := Error;
      }
    }

    /** `handleLaunchScanner`, up to the request. */
    method LaunchScanner() returns (strategy: string)
      modifies this`status
      ensures status == ScanningOpps && strategy == selectedStrategy
    {
      status := ScanningOpps;
      strategy := selectedStrategy;
    }

    method FinishScanner(result: Option<seq<TacticalOpportunity>>)
      modifies this`proactiveOpps, this`status
      ensures result.Some? ==> proactiveOpps == result.value && status == Idle
      ensures result.None? ==> proactiveOpps == old(proactiveOpps) && status == Error
    {
      if result.Some? {
        proactiveOpps := result.value;
        status := Idle;
      } else {
        status := Error;
      }
    }

    /** `handleIntelScan`, up to the request: it asks about the intel ticker
        set, which holds every watched ticker and every open position's. */
    method IntelScan() returns (tickers: seq<string>)
      modifies this`status
      ensures status == ScanningIntel
      ensures tickers == AllIntelTickers(watchlist, loggedTrades)
      ensures NoDuplicates(tickers)
      ensures forall t :: t in watchlist ==> t in tickers
      ensures forall t :: t in loggedTrades && t.status == Open ==> t.ticker in tickers
    {
      status := ScanningIntel;
      tickers := AllIntelTickers(watchlist, loggedTrades);
    }

    method FinishIntelScan(result: Option<seq<MarketAlert>>)
      modifies this`alerts, this`status
      ensures result.Some? ==> alerts == result.value && status == Idle
      ensures result.None? ==> alerts == old(alerts) && status == Error
    {
      if result.Some? {
        alerts := result.value;
        status := Idle;
      } else {
        status := Error;
      }
    }

    /** `handleGlobalOutlook`, up to the request. */
    method GlobalOutlook()
      modifies this`status
      ensures status == GeneratingOutlook
    {
      status := GeneratingOutlook;
    }

    method FinishOutlook(result: Option<MarketOutlook>)
      modifies this`marketOutlook, this`status
      ensures result.Some? ==> marketOutlook == result && status == Idle
      ensures result.None? ==> marketOutlook == old(marketOutlook) && status == Error
    {
      if result.Some? {
        marketOutlook := result;
        status := Idle;
      } else {
        status := Error;
      }
    }

    /** `handleManageTrade`, up to the request: open the advice panel for the
        trade with no advice yet. The status is not touched. */
    method ManageTrade(trade: LoggedTrade)
      modifies this`currentManagingTrade, this`isManaging, this`managementAdvice
      ensures currentManagingTrade == Some(trade) && isManaging && managementAdvice.None?
    {
      currentManagingTrade := Some(trade);
      isManaging := true;
      managementAdvice := None;
    }

    /** Completion of `handleManageTrade`: a failure is only logged. */
    method FinishManagement(advice: Option<ManagementAdvice>)
      modifies this`managementAdvice
      ensures managementAdvice == if advice.Some? then advice else old(managementAdvice)
    {
      if advice.Some? {
        managementAdvice := advice;
      }
    }

    method CloseManagement()
      modifies this`isManaging
      ensures !isManaging
    {
      isManaging := false;
    }

    /** The periodic trend refresh: only a non-empty answer replaces the
        trends, so once some have arrived the banner never falls back. */
    method ReceiveTrends(data: seq<TickerTrend>)
      modifies this`trends
      ensures trends == if |data| > 0 then data else old(trends)
      ensures |old(trends)| > 0 ==> |trends| > 0
    {
      if |data| > 0 {
        trends := data;
      }
    }
  }
}
