/** The rules components/Dashboard.tsx applies to one trade analysis before
    rendering it: the effective days to expiration, the 21-DTE exit target,
    the earnings-window badge, which optional panels show, the IV-rank
    highlight and the verdict style. */
module Dashboard {
  import opened Wrappers
  import opened Types

  /** `analysis.dte || 45`: a missing or zero DTE reads as 45. */
  function EffectiveDte(dte: Option<int>): (r: int)
    ensures r != 0
    ensures dte.Some? && dte.value != 0 ==> r == dte.value
    ensures dte.None? || dte == Some(0) ==> r == 45
  {
    match dte
    case Some(d) => if d != 0 then d else 45
    case None => 45
  }

  /** `Math.max(0, dte - 21)`: days until the 21-DTE management exit. */
  function ExitTargetDays(dte: int): (r: int)
    ensures r >= 0 && r >= dte - 21
    ensures r == 0 || r == dte - 21
    ensures dte >= 21 ==> r == dte - 21
    ensures dte <= 21 ==> r == 0
  {
    if dte - 21 > 0 then dte - 21 else 0
  }

  datatype EarningsBadge = NoCatalyst | SafeWindow | BinaryRisk

  /** An earnings date counts only when it is a non-empty string. */
  predicate HasCatalyst(a: TradeAnalysis) {
    a.earningsDate.Some? && a.earningsDate.value != ""
  }

  /** The badge's text: no date reads "No Catalyst"; otherwise the window is
      safe when the exit target is more than 24 days out. Read against the
      effective DTE, that is exactly a DTE above 45, so the default of 45 is
      a binary risk. */
  function EarningsBadgeFor(a: TradeAnalysis): (r: EarningsBadge)
    ensures r == NoCatalyst <==> !HasCatalyst(a)
    ensures r == SafeWindow <==> HasCatalyst(a) && EffectiveDte(a.dte) > 45
    ensures r == BinaryRisk <==> HasCatalyst(a) && EffectiveDte(a.dte) <= 45
    ensures HasCatalyst(a) && (a.dte.None? || a.dte == Some(0)) ==> r == BinaryRisk
  {
    var exitTargetDays := ExitTargetDays(EffectiveDte(a.dte));
    if HasCatalyst(a) then (if exitTargetDays > 24 then SafeWindow else BinaryRisk)
    else NoCatalyst
  }

  datatype Tone = Emerald | Amber | Rose

  /** The badge's colour follows the exit target alone, date or no date. */
  function EarningsBadgeTone(a: TradeAnalysis): (r: Tone)
    ensures r != Amber
    ensures r == Emerald <==> EffectiveDte(a.dte) > 45
    ensures HasCatalyst(a) ==> (r == Emerald <==> EarningsBadgeFor(a) == SafeWindow)
  {
    if ExitTargetDays(EffectiveDte(a.dte)) > 24 then Emerald else Rose
  }

  /** The alternatives listed under the verdict, none when the field is absent. */
  function Alternatives(a: TradeAnalysis): seq<string> {
    a.alternativeTickers.GetOr([])
  }

  /** The "Verified Alternatives" panel: shown for a Fair or Avoid verdict
      that comes with at least one alternative ticker, never for Good. */
  function ShowAlternatives(a: TradeAnalysis): (r: bool)
    ensures r <==> a.verdict != Good && |Alternatives(a)| > 0
    ensures a.verdict == Good ==> !r
  {
    a.verdict != Good && a.alternativeTickers.Some? && |a.alternativeTickers.value| > 0
  }

  /** The pivot card is shown exactly when a pivot suggestion is present. */
  function ShowPivot(a: TradeAnalysis): (r: Option<PivotSuggestion>)
    ensures r.Some? <==> a.pivotSuggestion.Some?
    ensures r.Some? ==> r.value == a.pivotSuggestion.value
  {
    a.pivotSuggestion
  }

  /** IV rank above 30 is highlighted as good, anything else as a warning. */
  function IvRankTone(ivRank: real): (r: Tone)
    ensures r != Rose
    ensures r == Emerald <==> ivRank > 30.0
  {
    if ivRank > 30.0 then Emerald else Amber
  }

  /** The verdict card's classes; the lookup is total over the three verdicts. */
  function VerdictStyle(v: Verdict): (r: string)
    ensures |r| > 0
  {
    match v
    case Good => "text-emerald-400 border-emerald-500/30 bg-emerald-500/5 verdict-glow-good"
    case Fair => "text-amber-400 border-amber-500/30 bg-amber-500/5 verdict-glow-fair"
    case Avoid => "text-rose-400 border-rose-500/30 bg-rose-500/5 verdict-glow-avoid"
  }

  /** Distinct verdicts get distinct styles. */
  lemma VerdictStylesDistinct(v: Verdict, w: Verdict)
    requires v != w
    ensures VerdictStyle(v) != VerdictStyle(w)
  {
  }
}
