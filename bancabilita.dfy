/**
 * The bankability verdict `valuta_bancabilita`: from the project NPV, the
 * project IRR, the WACC and the minimum DSCR it picks one of three states
 * and lists, in a fixed order, every threshold the project misses.
 */
module Bancabilita {

  /** "green" (bankable), "yellow" (borderline), "red" (not bankable). */
  datatype Stato = Verde | Giallo | Rosso

  /** The failed thresholds the verdict can report; each comment gives the text the page shows. */
  datatype Problema =
    | TirNonSopraWacc     // "TIR_progetto ≤ WACC"
    | VanNonPositivo      // "VAN ≤ 0"
    | DscrSottoUno        // "DSCR_min < 1.0"
    | DscrSottoSoglia     // "DSCR_min ≤ 1.2"

  /** The DSCR above which a project is bankable. */
  const SogliaDscr: real := 1.2
  /** The DSCR below which a project cannot even be borderline. */
  const MinimoDscr: real := 1.0

  /** Position of a threshold in the report: IRR first, then NPV, then the one DSCR entry. */
  function Posizione(p: Problema): nat
  {
    match p
    case TirNonSopraWacc => 0
    case VanNonPositivo => 1
    case DscrSottoUno => 2
    case DscrSottoSoglia => 2
  }

  /** How good a state is: green above yellow above red. */
  function Livello(s: Stato): nat
  {
    match s
    case Verde => 2
    case Giallo => 1
    case Rosso => 0
  }

  /** The decision table: green, then yellow, and red for every other input. */
  function Classifica(van: real, tirProj: real, wacc: real, dscrMin: real): (s: Stato)
    ensures s == Verde <==> tirProj > wacc && van > 0.0 && dscrMin > SogliaDscr
    ensures s == Giallo <==> tirProj > wacc && van > 0.0 && MinimoDscr <= dscrMin <= SogliaDscr
    ensures s == Rosso <==> !(tirProj > wacc && van > 0.0 && dscrMin >= MinimoDscr)
  {
    if tirProj > wacc && van > 0.0 && dscrMin > SogliaDscr then Verde
    else if tirProj > wacc && van > 0.0 && MinimoDscr <= dscrMin <= SogliaDscr then Giallo
    else Rosso
  }

  /** Reported thresholds appear in the order IRR, NPV, DSCR, each at most once. */
  predicate InOrdine(issues: seq<Problema>)
  {
    forall i, j :: 0 <= i < j < |issues| ==> Posizione(issues[i]) < Posizione(issues[j])
  }

  /** `valuta_bancabilita(van, tir_proj, wacc, dscr_min)`. */
  method ValutaBancabilita(van: real, tirProj: real, wacc: real, dscrMin: real)
    returns (stato: Stato, issues: seq<Problema>)
    ensures stato == Classifica(van, tirProj, wacc, dscrMin)
    ensures TirNonSopraWacc in issues <==> !(tirProj > wacc)
    ensures VanNonPositivo in issues <==> !(van > 0.0)
    ensures DscrSottoUno in issues <==> dscrMin < MinimoDscr
    ensures DscrSottoSoglia in issues <==> MinimoDscr <= dscrMin <= SogliaDscr
    ensures InOrdine(issues) && |issues| <= 3
    ensures issues == [] <==> stato == Verde
    ensures stato == Giallo ==> issues == [DscrSottoSoglia]
  {
    if tirProj > wacc && van > 0.0 && dscrMin > SogliaDscr {
      stato := Verde;
    } else if tirProj > wacc && van > 0.0 && MinimoDscr <= dscrMin <= SogliaDscr {
      stato := Giallo;
    } else {
      stato := Rosso;
    }

    issues := [];
    if !(tirProj > wacc) {
      issues := issues + [TirNonSopraWacc];
    }
    if !(van > 0.0) {
      issues := issues + [VanNonPositivo];
    }
    if !(dscrMin > SogliaDscr) {
      if dscrMin < MinimoDscr {
        issues := issues + [DscrSottoUno];
      } else if dscrMin <= SogliaDscr {
        issues := issues + [DscrSottoSoglia];
      }
    }
  }

  /**
   * The verdict never gets worse when the IRR, the NPV or the minimum DSCR
   * rises, or when the WACC falls; in particular a higher IRR keeps a green
   * or yellow project green or yellow.
   */
  lemma ClassificaMonotona(van: real, van': real, tir: real, tir': real, wacc: real, wacc': real, dscr: real, dscr': real)
    requires van <= van' && tir <= tir' && wacc' <= wacc && dscr <= dscr'
    ensures Livello(Classifica(van, tir, wacc, dscr)) <= Livello(Classifica(van', tir', wacc', dscr'))
  {
  }
}
