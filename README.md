# VibeTrader journal and watchlist state, in Dafny

VibeTrader is a browser app for options traders. A remote generative-AI
service grades uploaded trade screenshots. The app keeps a local trade
journal and a watchlist, and shows AI-written market commentary. This project
models the part of it that is plain logic:

- the state of the root component (`App.tsx`): the journal, the watchlist,
  the baseline balance, the analysis in progress, the active tab, the
  `AnalysisStatus` and the dialogs;
- the handlers that change that state;
- the views derived from it: displayed liquidity, the open-position tickers,
  the deduplicated intel ticker set and the ticker banner;
- the trade rules of the analysis dashboard (`components/Dashboard.tsx`).

Every remote call is a black box. Its outcome is a parameter (`None` for a
failure), and so are the random trade id, the clock and the parsed contents
of local storage.

Files:

- `wrappers.dfy`: `Option`.
- `types.dfy`: the records of `types.ts` that the model reads.
- `app_views.dfy` (module `AppViews`): the pure part of `App.tsx`. It holds
  the watchlist insertion and removal, the status update, the committed trade,
  `currentLiquidity`, `openPositionTickers`, `allIntelTickers` and the banner
  list, with the lemmas about them.
- `app_state.dfy` (module `AppState`): class `App`. It has the component's
  state fields, and one method per handler. Each method's ``modifies this`f``
  frame names exactly the fields that handler's setters replace. `Valid()`
  says that no broker session is set and that the commit form holds GTC, the
  50% target and 45 DTE. The constructor establishes it. `SetCredit` is the
  only handler that writes a field `Valid()` reads, and it requires and
  ensures `Valid()`. Every other handler keeps it because its frame leaves
  those fields alone.
- `dashboard.dfy` (module `Dashboard`): the dashboard's rules.

Facts about `App.tsx` that shape the model:

- The watchlist is a list. The input box, the plus button and the banner
  click never add a duplicate (App.tsx:231, 377, 384). A list read back from
  storage is kept as it is, so it may hold duplicates.
- `App.tsx` never calls `setBrokerSession` or `setSyncedBalance`: the
  connect dialog is never rendered. So the displayed liquidity is always the baseline plus
  the open credit (`App.CurrentLiquidity`). The general rule, session branch
  included, is the function `AppViews.Liquidity`.
- Removing a ticker from the intel list filters only the watchlist
  (App.tsx:396). A ticker that an open trade holds stays listed
  (`RemoveKeepsOpenTicker`).
- The commit form's DTE (45), GTC flag (on) and profit target (50) are never
  edited, so every trade committed in a session has DTE 45. The analysis's
  own DTE is not used.

## Model

| member | source | states |
|---|---|---|
| `AppViews.WithTicker` | App.tsx:376-384 | inserting a ticker leaves the watchlist unchanged exactly when the ticker is present, and otherwise appends it at the end; the old list stays a prefix, the element set grows by the ticker, and a duplicate-free list stays duplicate-free |
| `AppViews.WithTickerIdempotent` | App.tsx:377 | adding a ticker twice is the same as adding it once |
| `AppViews.WithoutTicker` | App.tsx:396 | removal keeps exactly the tickers different from the removed one and keeps a duplicate-free list duplicate-free |
| `AppViews.WithoutTickerAppend` | App.tsx:396 | removal distributes over concatenation, so the remaining tickers keep their relative order |
| `AppViews.WithoutAbsent` | App.tsx:396 | removing a ticker that is not watched changes nothing |
| `AppViews.RemoveUndoesAdd` | App.tsx:376-396 | removing a newly added ticker gives back the original watchlist |
| `AppViews.AddAfterRemove` | App.tsx:376-396 | re-adding a removed ticker puts it at the end |
| `AppViews.OpenTrades` | App.tsx:114 | the filter keeps exactly the journal's trades whose status is Open |
| `AppViews.OpenTradesAppend` | App.tsx:114 | the filter distributes over concatenation, so it keeps journal order and every open trade |
| `AppViews.TotalCredit` | App.tsx:114 | the sum of the credits, a missing credit counted as 0; never negative when no credit is |
| `AppViews.TotalCreditAppend` | App.tsx:114 | the sum of two journals put together is the sum of their sums |
| `AppViews.OpenCredit` | App.tsx:114 | the credit of the open trades; 0 when no trade is open |
| `AppViews.OpenCreditAppend` | App.tsx:114 | the open credit of two journals put together is the sum of theirs |
| `AppViews.TickersOf` | App.tsx:118 | the tickers of the trades, one per trade, position by position |
| `AppViews.TickersOfAppend` | App.tsx:118 | the ticker map distributes over concatenation |
| `AppViews.OpenPositionTickers` | App.tsx:118 | a ticker is listed exactly when some open trade carries it |
| `AppViews.OpenPositionTickersAppend` | App.tsx:118 | the open-position tickers distribute over concatenation: they follow journal order, once per open trade |
| `AppViews.Liquidity` | App.tsx:112-116 | the synced balance when a broker session and a synced balance exist; otherwise the baseline plus the open credit, so the baseline itself when no trade is open |
| `AppViews.NewTrade` | App.tsx:181-192 | the committed trade is Open, carries the given id and date, the analysis's ticker, strategy and sentiment name, and the form's DTE, GTC flag, target and credit |
| `AppViews.WithStatus` | App.tsx:348 | a status update keeps the journal length; each trade whose id matches has its status replaced and keeps all other fields; every other trade is unchanged |
| `AppViews.OpenCreditCons` | App.tsx:114 | a trade in front of the journal adds its credit, with a missing credit counted as 0, to the open credit when it is open, and nothing otherwise |
| `AppViews.WithStatusAbsent` | App.tsx:348 | a status update for an id no trade carries changes nothing |
| `AppViews.StatusChangeCredit` | App.tsx:112-116 | with distinct ids, changing one trade's status moves the open credit by exactly that trade's credit: down when it leaves Open, up when it enters Open |
| `AppViews.LiquidityAfterClose` | App.tsx:112-116 | with no broker session, closing or discarding an open trade lowers the displayed liquidity by exactly its credit |
| `AppViews.LiquidityAfterCommit` | App.tsx:112-116 | with no broker session, committing a trade raises the displayed liquidity by the committed credit |
| `AppViews.CommitThenCloseRestoresLiquidity` | App.tsx:112-116 | committing a trade whose id no trade in the journal carries (repeated ids elsewhere allowed) and then closing or discarding it leaves the displayed liquidity where it was |
| `AppViews.LiquidityWithSession` | App.tsx:113 | with a broker session and a synced balance, the displayed liquidity is that balance, whatever the journal holds |
| `AppViews.CommitOpenTickers` | App.tsx:181-193 | a committed trade is open and goes in front, so its ticker leads the open-position tickers, followed by the old ones |
| `AppViews.OpenTradesAfterClose` | App.tsx:348 | after a status update to Closed or Discarded, the open trades are exactly the previously open trades with a different id |
| `AppViews.CloseRemovesTicker` | App.tsx:118 | closing the only open trade on a ticker removes the ticker from the open-position tickers |
| `AppViews.Dedup` | App.tsx:119 | `Array.from(new Set(s))` has no duplicates and holds exactly the elements of `s` |
| `AppViews.AllIntelTickers` | App.tsx:119 | the intel ticker set has no duplicates and holds exactly the watched tickers and the open-position tickers |
| `AppViews.DedupDistinct` | App.tsx:119 | a list without duplicates is its own deduplication |
| `AppViews.DedupPrefix` | App.tsx:119 | deduplicating `a + b` begins with the deduplication of `a` |
| `AppViews.DedupCons` | App.tsx:119 | deduplication keeps the first occurrence of each element: the head, then the deduplicated rest without the head |
| `AppViews.IntelWatchlistFirst` | App.tsx:119 | a watchlist without duplicates comes first, unchanged, in the intel ticker set |
| `AppViews.RemoveKeepsOpenTicker` | App.tsx:392-396 | removing an open-position ticker from the intel list leaves it in the list |
| `AppViews.DisplayTrends` | App.tsx:24-29 | the banner always has something to show; a non-empty trends list is shown as is |
| `AppViews.BannerItems` | App.tsx:34 | the banner renders three copies of the displayed list, each copy showing the same trend at the same position |
| `AppViews.DefaultBanner` | App.tsx:24-34 | with no trends the banner shows SPY, QQQ, NVDA, IWM three times over: twelve buttons |
| `AppState.App.constructor` | App.tsx:60-93 | the initial state: nothing stored (missing or empty) gives an empty journal, baseline 45000 and watchlist SPY, QQQ, NVDA, IWM; otherwise the parsed entries; Audit tab, IDLE status, no analysis, commit form GTC/50/0/45 |
| `AppState.App.CurrentLiquidity` | App.tsx:112-116 | in this component, the displayed liquidity is always the baseline plus the credit of the open trades |
| `AppState.App.SelectTab` | App.tsx:242 | switching tab sets the tab and the IDLE status and changes nothing else |
| `AppState.App.ClickBannerTicker` | App.tsx:231 | a banner click opens the intel tab and watches the ticker once; the status is left alone |
| `AppState.App.EditNewTicker` | App.tsx:374 | the ticker input holds the typed text |
| `AppState.App.AddTicker` | App.tsx:376-384 | an empty input changes nothing; otherwise the ticker is watched once and the input is cleared |
| `AppState.App.RemoveTicker` | App.tsx:396 | every copy of the ticker leaves the watchlist |
| `AppState.App.UpdateStatus` | App.tsx:348 | the journal becomes the status update of the old journal; nothing else changes |
| `AppState.App.ClearJournal` | App.tsx:347 | a confirmed wipe empties the journal; an unconfirmed one changes nothing |
| `AppState.App.SetLoggingModal` | App.tsx:337 | the commit dialog opens or closes |
| `AppState.App.SetCredit` | App.tsx:495 | the form's credit becomes the parsed number, or 0 for text that does not parse; the form keeps its other values |
| `AppState.App.FinalizeLogging` | App.tsx:179-197 | without an analysis nothing changes; otherwise exactly one open trade is put in front of the journal, with ticker, strategy and sentiment from the analysis and DTE 45, GTC, target and credit from the form; the analysis is cleared, the dialog closes and the Journal tab opens |
| `AppState.App.ResetAnalysis` | App.tsx:199-203 | clears the analysis and the opportunities and sets IDLE |
| `AppState.App.SyncBaseline` | App.tsx:511 | the baseline becomes the parsed number, or 0 for text that does not parse, and the dialog closes |
| `AppState.App.OpenBalanceModal` | App.tsx:221 | the wallet button opens the baseline dialog |
| `AppState.App.SelectStrategy` | App.tsx:279 | the strategy picker sets the strategy the scans send |
| `AppState.App.StartAnalysis` | App.tsx:121-123 | an upload of zero files changes nothing and sends nothing; otherwise the status becomes ANALYZING and the selected strategy is sent |
| `AppState.App.FinishAnalysis` | App.tsx:133-139 | success stores the analysis and sets IDLE; failure sets ERROR and keeps the old analysis |
| `AppState.App.LaunchScanner` | App.tsx:142-143 | the status becomes SCANNING_OPPS and the selected strategy is sent |
| `AppState.App.FinishScanner` | App.tsx:144-148 | success stores the opportunities and sets IDLE; failure sets ERROR |
| `AppState.App.IntelScan` | App.tsx:151-154 | the status becomes SCANNING_INTEL; the request names each intel ticker once, every watched ticker and every open trade's ticker among them |
| `AppState.App.FinishIntelScan` | App.tsx:154-157 | success stores the alerts and sets IDLE; failure sets ERROR |
| `AppState.App.GlobalOutlook` | App.tsx:160-161 | the status becomes GENERATING_OUTLOOK |
| `AppState.App.FinishOutlook` | App.tsx:162-166 | success stores the outlook and sets IDLE; failure sets ERROR |
| `AppState.App.ManageTrade` | App.tsx:169-172 | opens the advice panel for the trade with no advice yet |
| `AppState.App.FinishManagement` | App.tsx:173-176 | advice that arrives is stored; a failure changes nothing |
| `AppState.App.CloseManagement` | App.tsx:441 | the advice panel closes |
| `AppState.App.ReceiveTrends` | App.tsx:101-105 | only a non-empty answer replaces the trends, so once trends have arrived the banner never falls back to the defaults |
| `Dashboard.EffectiveDte` | components/Dashboard.tsx:36 | the effective DTE is never 0: a missing or zero DTE reads as 45, any other value as itself |
| `Dashboard.ExitTargetDays` | components/Dashboard.tsx:37 | the exit target is `max(0, dte - 21)`: never negative, `dte - 21` when dte is at least 21, and 0 otherwise |
| `Dashboard.EarningsBadgeFor` | components/Dashboard.tsx:173-174 | no earnings date, or an empty one, reads "No Catalyst"; otherwise "Safe Window" exactly when the effective DTE exceeds 45, else "Binary Risk", so the default DTE is a binary risk |
| `Dashboard.EarningsBadgeTone` | components/Dashboard.tsx:173 | the badge is green exactly when the effective DTE exceeds 45, with or without a date, and red otherwise |
| `Dashboard.ShowAlternatives` | components/Dashboard.tsx:99 | the alternatives panel shows exactly when the verdict is not Good and at least one alternative ticker is present |
| `Dashboard.ShowPivot` | components/Dashboard.tsx:42 | the pivot card shows exactly when a pivot suggestion is present, and shows that suggestion |
| `Dashboard.IvRankTone` | components/Dashboard.tsx:134 | IV rank gets the good highlight exactly when it is above 30, and the warning highlight otherwise |
| `Dashboard.VerdictStyle` | components/Dashboard.tsx:24-28 | the style lookup gives a non-empty class list for each of the three verdicts |
| `Dashboard.VerdictStylesDistinct` | components/Dashboard.tsx:75 | different verdicts get different class strings |

## Left out

- Remote calls are not modelled. The generative-AI client (`geminiService.ts`)
  and the brokerage REST clients (`brokerageService.ts`,
  `tastytradeService.ts`) appear only as outcomes passed to the `Finish…`
  methods. Their payloads are trusted as the type declarations say.
- A verdict outside Good/Fair/Avoid is not modelled. The source does not
  validate the remote answer, so such a verdict would give an undefined
  style. The `Verdict` type rules it out.
- `localStorage` reads and writes (App.tsx:96-98), `JSON.parse`,
  `FileReader`, `crypto.randomUUID` and `new Date()` are not modelled. They
  are I/O or nondeterminism. Their results are parameters, for example the
  constructor's parsed entries and `FinalizeLogging`'s id and date. A
  `JSON.parse` that throws is not modelled.
- Money is `real`. Float rounding, `toLocaleString` formatting and NaN are
  not modelled. When a stored baseline is present but does not parse,
  `parseFloat` yields NaN (App.tsx:69). The constructor takes the parse
  result as a real, so it cannot represent that case. Only the `|| 0` of the
  dialog (App.tsx:511) and of the credit field (App.tsx:495) is modelled.
- AppState.App.EditNewTicker: `toUpperCase` is not modelled. It is Unicode case
  mapping, so the caller passes the upper-cased text.
- Timing of overlapping scans is not modelled, beyond the fact that
  completions may arrive in any order. There is no cancellation, and the
  180-second trend refresh timer (App.tsx:100-110) is not modelled.
  `ReceiveTrends` covers one refresh. A failed refresh is logged and changes
  nothing, which is the same as not calling it.
- The broker login and balance sync are not modelled: nothing in `App.tsx`
  calls them. Their hardcoded 45000 fallbacks are therefore outside the model.
- The baseline dialog's text buffer (`tempBalance`) and the broker form
  fields are not modelled. `SyncBaseline` receives the parsed value directly.
- The TradeJournal component's rule is not a precondition of
  `App.UpdateStatus`. That rule offers Manage/Close only on open trades and
  Close sends Closed. The handler itself accepts any id and status, so the
  method does too.
- Presentational components, JSX, styling and icons are not modelled. This
  includes the outlook reports (with their mailto bodies), the intelligence
  feed, the adjustment dashboard, the green "active" dots and the fixed
  40%/50% management-rule tiles.
