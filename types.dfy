/** The records of types.ts that the journal/watchlist state and the
    dashboard rules read. Fields that only text rendering reads (reasoning,
    risk factors, chart values, ...) are omitted. */
module Types {
  import opened Wrappers

  datatype Sentiment = Bullish | Bearish | Neutral

  datatype Verdict = Good | Fair | Avoid

  datatype TradeStatus = Open | Closed | Discarded

  /** `AnalysisStatus` enum: what the main screen is busy with. */
  datatype AnalysisStatus =
    | Idle | Uploading | Analyzing | ScanningOpps | Completed
    | ScanningIntel | GeneratingOutlook | Error

  /** The four tabs of the root component. */
  datatype Tab = AuditTab | IntelligenceTab | TacticalTab | JournalTab

  datatype BrokerageProvider =
    | Tastytrade | Thinkorswim | Robinhood | Schwab | ETrade | InteractiveBrokers

  datatype BrokerSession = BrokerSession(token: string, email: string, broker: BrokerageProvider)

  datatype PivotSuggestion = PivotSuggestion(suggestedStrategy: string, reason: string, efficiencyGain: string)

  /** The remote service's verdict on an uploaded trade. */
  datatype TradeAnalysis = TradeAnalysis(
    strategy: string,
    ticker: string,
    sentiment: Sentiment,
    ivRank: real,
    verdict: Verdict,
    earningsDate: Option<string>,
    dte: Option<int>,
    alternativeTickers: Option<seq<string>>,
    pivotSuggestion: Option<PivotSuggestion>)

  /** A journal entry. `creditReceived` is None when the stored entry lacks it
      (or it is not a number); readers count it as 0. */
  datatype LoggedTrade = LoggedTrade(
    id: string,
    ticker: string,
    strategy: string,
    dte: int,
    openDate: string,
    status: TradeStatus,
    gtcOrder: bool,
    profitTarget: int,
    sentiment: string,
    creditReceived: Option<real>)

  /** The commit form's values. */
  datatype LoggingDetails = LoggingDetails(gtc: bool, profitTarget: int, creditReceived: real, dte: int)

  datatype TickerTrend = TickerTrend(symbol: string, change: string, vibe: Sentiment, note: string)

  datatype TacticalOpportunity = TacticalOpportunity(ticker: string, ivRank: real, strategy: string, sentiment: Sentiment)

  datatype MarketAlert = MarketAlert(id: string, ticker: string, headline: string)

  datatype MarketOutlook = MarketOutlook(reportDate: string, targetSession: string, globalMacroVibe: string)

  datatype AdviceVerdict = Stay | Adjust | Exit

  datatype ManagementAdvice = ManagementAdvice(verdict: AdviceVerdict, headline: string)

  /** The text a sentiment value has in the source's string unions. */
  function SentimentName(s: Sentiment): string {
    match s
    case Bullish => "Bullish"
    case Bearish => "Bearish"
    case Neutral => "Neutral"
  }
}
