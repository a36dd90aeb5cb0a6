/**
 * The project-finance projection engine `calcola_pef`: from scalar assumptions
 * it builds the yearly series over a timeline of construction years followed
 * by operation years (revenue, opex, construction investment, EBITDA,
 * depreciation, EBIT, tax, net income, operating cash flow, debt service),
 * then the WACC, the project NPV, the levered equity series and the DSCR
 * aggregates. Percentages are numbers between 0 and 100, as in the source.
 * Timeline index i (0-based) is year i + 1; operation offset k is index
 * durataCostruzione + k.
 */
module Pef {
  import opened Wrappers
  import opened Series
  import opened Npf

  datatype Ipotesi = Ipotesi(
    capex: real,              // total investment
    opex: real,               // yearly operating cost before inflation
    ricavi: real,             // yearly revenue before inflation
    inflazione: real,         // yearly inflation, %
    durataCostruzione: nat,   // construction years
    durataGestione: nat,      // operation years
    tassoInteresse: real,     // interest rate on the debt (Kd), %
    aliquotaFiscale: real,    // tax rate, %
    percEquity: real,         // share of CAPEX financed by equity, %
    costoEquity: real)        // required return on equity (Ke), %
  {
    /**
     * The input bounds under which the engine is well defined. The input form
     * enforces all of them but the tax rate's upper bound, which is assumed here:
     * above 100% the after-tax cost of debt turns negative.
     */
    predicate Valid()
    {
      && capex > 0.0
      && durataCostruzione >= 1 && durataGestione >= 1
      && tassoInteresse >= 0.0 && costoEquity >= 0.0 && inflazione >= 0.0
      && ricavi >= 0.0 && opex >= 0.0
      && 0.0 <= aliquotaFiscale <= 100.0
      && 0.0 <= percEquity <= 100.0
    }
  }

  /** Number of timeline years, `len(anni)`. */
  function Durata(a: Ipotesi): nat
  {
    a.durataCostruzione + a.durataGestione
  }

  /** One year of inflation, `1 + inflazione/100`. */
  function FattoreInflazione(a: Ipotesi): real
  {
    1.0 + a.inflazione / 100.0
  }

  /** Zero in construction years, then the base revenue grown by inflation. */
  function RicaviAnnui(a: Ipotesi): (r: seq<real>)
    ensures |r| == Durata(a)
  {
    Fill(a.durataCostruzione, 0.0)
      + seq(a.durataGestione, k requires 0 <= k => a.ricavi * Pow(FattoreInflazione(a), k))
  }

  /** Zero in construction years, then the base opex grown by inflation. */
  function OpexAnnui(a: Ipotesi): (r: seq<real>)
    ensures |r| == Durata(a)
  {
    Fill(a.durataCostruzione, 0.0)
      + seq(a.durataGestione, k requires 0 <= k => a.opex * Pow(FattoreInflazione(a), k))
  }

  /** CAPEX spread evenly over the construction years. */
  function Investimenti(a: Ipotesi): (r: seq<real>)
    ensures |r| == Durata(a)
  {
    seq(Durata(a), i requires 0 <= i < Durata(a) => if i < a.durataCostruzione then a.capex / a.durataCostruzione as real else 0.0)
  }

  function Ebitda(a: Ipotesi): (r: seq<real>)
    ensures |r| == Durata(a)
  {
    Minus(RicaviAnnui(a), OpexAnnui(a))
  }

  /** Straight-line depreciation of CAPEX over the operation years. */
  function Ammortamenti(a: Ipotesi): (r: seq<real>)
    ensures |r| == Durata(a)
  {
    seq(Durata(a), i requires 0 <= i < Durata(a) => if i >= a.durataCostruzione then a.capex / a.durataGestione as real else 0.0)
  }

  function Ebit(a: Ipotesi): (r: seq<real>)
    ensures |r| == Durata(a)
  {
    Minus(Ebitda(a), Ammortamenti(a))
  }

  /**
   * Tax of one year: the tax rate applied to positive EBIT only, with no loss
   * carry-forward. For a rate between 0 and 100% it is never negative and
   * never exceeds the EBIT it is levied on.
   */
  function Tassa(ebit: real, aliquota: real): (t: real)
    ensures ebit <= 0.0 ==> t == 0.0
    ensures 0.0 <= aliquota <= 100.0 ==> 0.0 <= t <= Max(ebit, 0.0)
  {
    Percentuale(Max(ebit, 0.0), aliquota)
  }

  function Imposte(a: Ipotesi): (r: seq<real>)
    ensures |r| == Durata(a)
  {
    var ebit := Ebit(a);
    seq(|ebit|, i requires 0 <= i < |ebit| => Tassa(ebit[i], a.aliquotaFiscale))
  }

  function UtileNetto(a: Ipotesi): (r: seq<real>)
    ensures |r| == Durata(a)
  {
    Minus(Ebit(a), Imposte(a))
  }

  /** Unlevered operating cash flow: net income plus depreciation. */
  function FlussoCassaOperativo(a: Ipotesi): (r: seq<real>)
    ensures |r| == Durata(a)
  {
    Plus(UtileNetto(a), Ammortamenti(a))
  }

  /** Debt share of CAPEX, %: the complement of the equity share. */
  function PercDebito(a: Ipotesi): (r: real)
    ensures r + a.percEquity == 100.0
    ensures a.Valid() ==> 0.0 <= r <= 100.0
  {
    100.0 - a.percEquity
  }

  /** The debt raised: the debt share of CAPEX; none exactly when equity is 100%. */
  function DebitoIniziale(a: Ipotesi): (d: real)
    ensures a.Valid() ==> 0.0 <= d <= a.capex
    ensures a.Valid() ==> (d == 0.0 <==> a.percEquity == 100.0)
  {
    Percentuale(a.capex, PercDebito(a))
  }

  /** The equity paid in: the equity share of CAPEX. */
  function EquityIniziale(a: Ipotesi): (e: real)
    ensures a.Valid() ==> 0.0 <= e <= a.capex
  {
    Percentuale(a.capex, a.percEquity)
  }

  /**
   * `c * (perc / 100)`, the share of `perc` percent of an amount `c`: nothing
   * of nothing, between 0 and the amount for a percentage between 0 and 100,
   * and 0 of a positive amount only for 0%.
   */
  function Percentuale(c: real, perc: real): (q: real)
    ensures c == 0.0 ==> q == 0.0
    ensures c >= 0.0 && 0.0 <= perc <= 100.0 ==> 0.0 <= q <= c
    ensures c > 0.0 ==> (q == 0.0 <==> perc == 0.0)
  {
    var f := perc / 100.0;
    var q := c * f;
    Quota(c, f, q);
    q
  }

  lemma Quota(c: real, f: real, q: real)
    requires q == c * f
    ensures c == 0.0 ==> q == 0.0
    ensures c >= 0.0 && 0.0 <= f <= 1.0 ==> 0.0 <= q <= c
    ensures c > 0.0 ==> (q == 0.0 <==> f == 0.0)
  {
    if c >= 0.0 && 0.0 <= f <= 1.0 {
      FractionBounds(c, f);
    }
    if c > 0.0 {
      ZeroProduct(f, c);
    }
  }

  /** The level yearly payment `npf.pmt(tasso/100, durataGestione, -debitoIniziale)`. */
  function Rata(a: Ipotesi): (p: real)
    requires a.Valid()
    ensures Value(a.tassoInteresse / 100.0, -DebitoIniziale(a), p, a.durataGestione) == 0.0
    ensures p >= 0.0
    ensures p > 0.0 <==> a.percEquity < 100.0
  {
    var p := Pmt(a.tassoInteresse / 100.0, a.durataGestione, -DebitoIniziale(a));
    PmtSettles(a.tassoInteresse / 100.0, a.durataGestione, -DebitoIniziale(a), p);
    p
  }

  /** Debt service: nothing while building, then the level payment every operation year. */
  function RataAnnua(a: Ipotesi): (r: seq<real>)
    requires a.Valid()
    ensures |r| == Durata(a)
  {
    Fill(a.durataCostruzione, 0.0) + Fill(a.durataGestione, Rata(a))
  }

  /**
   * The levered series: the equity outlay, then cash flow minus debt service
   * for timeline indices 1 .. end (index 0 is dropped, as the source does).
   */
  function FlussiEquity(a: Ipotesi): (r: seq<real>)
    requires a.Valid()
    ensures |r| == Durata(a)
  {
    [-EquityIniziale(a)] + Minus(FlussoCassaOperativo(a)[1..], RataAnnua(a)[1..])
  }

  /** `we * ke + wd * kd * (1 - aliquota/100)`; the weights add up to one. */
  function Wacc(a: Ipotesi): (w: real)
    requires a.Valid()
    ensures w >= 0.0
  {
    var ke, kd := a.costoEquity / 100.0, a.tassoInteresse / 100.0;
    var we, wd := a.percEquity / 100.0, PercDebito(a) / 100.0;
    NonNegativeProduct(we, ke);
    NonNegativeProduct(wd, kd);
    NonNegativeProduct(wd * kd, 1.0 - a.aliquotaFiscale / 100.0);
    we * ke + wd * kd * (1.0 - a.aliquotaFiscale / 100.0)
  }

  lemma NonNegativeProduct(x: real, y: real)
    requires x >= 0.0 && y >= 0.0
    ensures x * y >= 0.0
  {
  }

  /** The unlevered valuation series: -CAPEX at time 0, then the operation-year cash flows. */
  function FlussiProgetto(a: Ipotesi): (r: seq<real>)
    requires a.Valid()
    ensures |r| == a.durataGestione + 1
  {
    [-a.capex] + FlussoCassaOperativo(a)[a.durataCostruzione..]
  }

  /** `npf.npv(wacc, flussi_progetto)`; with nothing to discount (WACC 0) it is the plain sum of the flows. */
  function VanProgetto(a: Ipotesi): (v: real)
    requires a.Valid()
    ensures Wacc(a) == 0.0 ==> v == Sum(FlussiProgetto(a))
  {
    NpvAtZeroRate(FlussiProgetto(a));
    Npv(Wacc(a), FlussiProgetto(a))
  }

  /** Element-wise ratio; undefined where the divisor is zero (numpy would give inf or NaN). */
  function Ratios(num: seq<real>, den: seq<real>): seq<Option<real>>
    requires |num| == |den|
  {
    seq(|num|, i requires 0 <= i < |num| => if den[i] == 0.0 then None else Some(num[i] / den[i]))
  }

  /** DSCR of each operation year: operating cash flow over debt service. */
  function Dscr(a: Ipotesi): (r: seq<Option<real>>)
    requires a.Valid()
    ensures |r| == a.durataGestione
  {
    Ratios(FlussoCassaOperativo(a)[a.durataCostruzione..], RataAnnua(a)[a.durataCostruzione..])
  }

  /**
   * `nanmean` of the yearly DSCR: defined exactly when there is debt, and then
   * the mean operating cash flow of the operation years over the level payment.
   */
  function DscrMedio(a: Ipotesi): (r: Option<real>)
    requires a.Valid()
    ensures r.Some? <==> a.percEquity < 100.0
    ensures a.percEquity < 100.0 ==> r == Some(Mean(FlussoCassaOperativo(a)[a.durataCostruzione..]) / Rata(a))
  {
    DscrDefinito(a);
    DscrMediaFlussi(a);
    NanMean(Dscr(a))
  }

  /** `nanmin` of the yearly DSCR: defined exactly when there is debt, and then the worst year's DSCR. */
  function DscrMin(a: Ipotesi): (r: Option<real>)
    requires a.Valid()
    ensures r.Some? <==> a.percEquity < 100.0
    ensures r.Some? ==> Some(r.value) in Dscr(a)
    ensures r.Some? ==> forall k :: 0 <= k < a.durataGestione ==> Dscr(a)[k].Some? && r.value <= Dscr(a)[k].value
  {
    DscrDefinito(a);
    NanMin(Dscr(a))
  }

  /** What `calcola_pef` returns, without the IRRs: the table's columns and the scalar indicators. */
  datatype RisultatoPef = RisultatoPef(
    ricavi: seq<real>, opex: seq<real>, ebitda: seq<real>, ammortamenti: seq<real>,
    utileNetto: seq<real>, flussoOperativo: seq<real>, servizioDebito: seq<real>,
    flussiEquity: seq<real>, van: real, wacc: real,
    dscrMedio: Option<real>, dscrMin: Option<real>)

  function CalcolaPef(a: Ipotesi): (p: RisultatoPef)
    requires a.Valid()
    ensures |p.ricavi| == |p.opex| == |p.ebitda| == |p.ammortamenti| == Durata(a)
    ensures |p.utileNetto| == |p.flussoOperativo| == |p.servizioDebito| == |p.flussiEquity| == Durata(a)
    ensures p.wacc >= 0.0
    ensures p.dscrMin.Some? <==> a.percEquity < 100.0
    ensures p.dscrMedio.Some? <==> a.percEquity < 100.0
    ensures p.dscrMin.Some? ==> p.dscrMin.value <= p.dscrMedio.value
  {
    DscrAggregati(a);
    RisultatoPef(RicaviAnnui(a), OpexAnnui(a), Ebitda(a), Ammortamenti(a),
        UtileNetto(a), FlussoCassaOperativo(a), RataAnnua(a),
        FlussiEquity(a), VanProgetto(a), Wacc(a),
        DscrMedio(a), DscrMin(a))
  }

  // ---------------------------------------------------------------------
  // Properties of the yearly series
  // ---------------------------------------------------------------------

  /** Construction years: CAPEX spread evenly, and no revenue, opex, depreciation, debt service or cash flow. */
  lemma {:induction false} AnnoCostruzione(a: Ipotesi, i: nat)
    requires a.Valid() && i < a.durataCostruzione
    ensures RicaviAnnui(a)[i] == 0.0 && OpexAnnui(a)[i] == 0.0
    ensures Investimenti(a)[i] == a.capex / a.durataCostruzione as real
    ensures Ammortamenti(a)[i] == 0.0 && RataAnnua(a)[i] == 0.0
    ensures Ebit(a)[i] == 0.0 && Imposte(a)[i] == 0.0 && FlussoCassaOperativo(a)[i] == 0.0
  {
  }

  /**
   * Operation offset k: revenue and opex are the base values grown by k years
   * of inflation, nothing is invested, CAPEX / durataGestione is depreciated
   * and the level payment is due.
   */
  lemma {:induction false} AnnoGestione(a: Ipotesi, k: nat)
    requires a.Valid() && k < a.durataGestione
    ensures RicaviAnnui(a)[a.durataCostruzione + k] == a.ricavi * Pow(FattoreInflazione(a), k)
    ensures OpexAnnui(a)[a.durataCostruzione + k] == a.opex * Pow(FattoreInflazione(a), k)
    ensures Investimenti(a)[a.durataCostruzione + k] == 0.0
    ensures Ammortamenti(a)[a.durataCostruzione + k] == a.capex / a.durataGestione as real
    ensures RataAnnua(a)[a.durataCostruzione + k] == Rata(a)
  {
  }

  /** The first operation year carries the base revenue and opex unchanged. */
  lemma PrimoAnnoGestione(a: Ipotesi)
    requires a.Valid()
    ensures RicaviAnnui(a)[a.durataCostruzione] == a.ricavi
    ensures OpexAnnui(a)[a.durataCostruzione] == a.opex
  {
    AnnoGestione(a, 0);
  }

  /** With inflation, revenue never falls from one operation year to the next. */
  lemma {:induction false} RicaviCrescenti(a: Ipotesi, k: nat)
    requires a.Valid() && k + 1 < a.durataGestione
    ensures RicaviAnnui(a)[a.durataCostruzione + k] <= RicaviAnnui(a)[a.durataCostruzione + k + 1]
  {
    var q, g := FattoreInflazione(a), Pow(FattoreInflazione(a), k);
    assert RicaviAnnui(a)[a.durataCostruzione + k] == a.ricavi * g;
    assert RicaviAnnui(a)[a.durataCostruzione + k + 1] == a.ricavi * Pow(q, k + 1);
    assert Pow(q, k + 1) == q * g;
    Crescita(a.ricavi, q, g);
  }

  lemma Crescita(r: real, q: real, g: real)
    requires r >= 0.0 && q >= 1.0 && g >= 0.0
    ensures r * g <= r * (q * g)
  {
    NonNegativeProduct(r * g, q - 1.0);
    assert r * (q * g) - r * g == (r * g) * (q - 1.0);
  }

  /** A fraction between 0 and 1 of a non-negative amount lies between 0 and the amount. */
  lemma FractionBounds(m: real, t: real)
    requires m >= 0.0 && 0.0 <= t <= 1.0
    ensures 0.0 <= m * t <= m
  {
    assert m * (1.0 - t) >= 0.0;
    assert m * (1.0 - t) == m - m * t;
  }

  /** The income statement of every year, and the operating cash flow derived from it. */
  lemma {:induction false} ContoEconomico(a: Ipotesi, i: nat)
    requires a.Valid() && i < Durata(a)
    ensures Ebitda(a)[i] == RicaviAnnui(a)[i] - OpexAnnui(a)[i]
    ensures Ebit(a)[i] == Ebitda(a)[i] - Ammortamenti(a)[i]
    ensures Imposte(a)[i] == Tassa(Ebit(a)[i], a.aliquotaFiscale)
    ensures Ebit(a)[i] <= 0.0 ==> Imposte(a)[i] == 0.0
    ensures 0.0 <= Imposte(a)[i] <= Max(Ebit(a)[i], 0.0)
    ensures UtileNetto(a)[i] == Ebit(a)[i] - Imposte(a)[i]
    ensures FlussoCassaOperativo(a)[i] == UtileNetto(a)[i] + Ammortamenti(a)[i]
    ensures FlussoCassaOperativo(a)[i] == Ebitda(a)[i] - Imposte(a)[i]
  {
  }

  /** The construction investments add up to CAPEX. */
  lemma TotaleInvestimenti(a: Ipotesi)
    requires a.Valid()
    ensures Sum(Investimenti(a)) == a.capex
  {
    var n := a.durataCostruzione as real;
    assert Investimenti(a) == Fill(a.durataCostruzione, a.capex / n) + Fill(a.durataGestione, 0.0);
    SumConcat(Fill(a.durataCostruzione, a.capex / n), Fill(a.durataGestione, 0.0));
    SumFill(a.durataCostruzione, a.capex / n);
    SumFill(a.durataGestione, 0.0);
  }

  /** The depreciation charges add up to CAPEX. */
  lemma TotaleAmmortamenti(a: Ipotesi)
    requires a.Valid()
    ensures Sum(Ammortamenti(a)) == a.capex
  {
    var n := a.durataGestione as real;
    assert Ammortamenti(a) == Fill(a.durataCostruzione, 0.0) + Fill(a.durataGestione, a.capex / n);
    SumConcat(Fill(a.durataCostruzione, 0.0), Fill(a.durataGestione, a.capex / n));
    SumFill(a.durataCostruzione, 0.0);
    SumFill(a.durataGestione, a.capex / n);
  }

  // ---------------------------------------------------------------------
  // Financing: debt service and WACC
  // ---------------------------------------------------------------------

  /** Equity and debt together finance exactly the CAPEX. */
  lemma StrutturaFinanziaria(a: Ipotesi)
    requires a.Valid()
    ensures EquityIniziale(a) + DebitoIniziale(a) == a.capex
    ensures 0.0 <= EquityIniziale(a) && 0.0 <= DebitoIniziale(a)
    ensures DebitoIniziale(a) == 0.0 <==> a.percEquity == 100.0
  {
    NonNegativeProduct(a.capex, a.percEquity / 100.0);
    NonNegativeProduct(a.capex, PercDebito(a) / 100.0);
    if DebitoIniziale(a) == 0.0 {
      ZeroProduct(PercDebito(a) / 100.0, a.capex);
    }
  }

  /**
   * The level payment repays the initial debt exactly over the operation years
   * at the debt rate, and no other constant payment does; it is positive exactly
   * when there is debt.
   */
  lemma DebitoEstinto(a: Ipotesi, p: real)
    requires a.Valid()
    ensures Value(a.tassoInteresse / 100.0, -DebitoIniziale(a), p, a.durataGestione) == 0.0 <==> p == Rata(a)
    ensures Rata(a) >= 0.0
    ensures Rata(a) > 0.0 <==> a.percEquity < 100.0
  {
    PmtSettles(a.tassoInteresse / 100.0, a.durataGestione, -DebitoIniziale(a), p);
    StrutturaFinanziaria(a);
  }

  /** At a zero debt rate each payment is debt / durataGestione, and the payments add up to the debt. */
  lemma RataTassoZero(a: Ipotesi)
    requires a.Valid() && a.tassoInteresse == 0.0
    ensures Rata(a) == DebitoIniziale(a) / a.durataGestione as real
    ensures Sum(RataAnnua(a)) == DebitoIniziale(a)
  {
    var n, rata := a.durataGestione as real, Rata(a);
    var costruzione, gestione := Fill(a.durataCostruzione, 0.0), Fill(a.durataGestione, rata);
    SumConcat(costruzione, gestione);
    SumFill(a.durataCostruzione, 0.0);
    SumFill(a.durataGestione, rata);
    assert Sum(costruzione) == 0.0;
    assert Sum(gestione) == n * rata;
    assert rata * n == DebitoIniziale(a);
  }

  /** A weighted average lies between the values it averages. */
  lemma WeightedAverageBounds(we: real, x: real, wd: real, y: real)
    requires we >= 0.0 && wd >= 0.0 && we + wd == 1.0
    ensures Smaller(x, y) <= we * x + wd * y <= Max(x, y)
  {
    var lo, hi := Smaller(x, y), Max(x, y);
    NonNegativeProduct(we, x - lo);
    NonNegativeProduct(wd, y - lo);
    NonNegativeProduct(we, hi - x);
    NonNegativeProduct(wd, hi - y);
  }

  /**
   * WACC is the average of the cost of equity and the after-tax cost of debt,
   * weighted by the financing shares; all equity gives the cost of equity.
   */
  lemma WaccMedia(a: Ipotesi)
    requires a.Valid()
    ensures var ke, kdNetto := a.costoEquity / 100.0, a.tassoInteresse / 100.0 * (1.0 - a.aliquotaFiscale / 100.0);
      Smaller(ke, kdNetto) <= Wacc(a) <= Max(ke, kdNetto)
    ensures a.percEquity == 100.0 ==> Wacc(a) == a.costoEquity / 100.0
    ensures a.percEquity == 0.0 ==> Wacc(a) == a.tassoInteresse / 100.0 * (1.0 - a.aliquotaFiscale / 100.0)
  {
    var ke, kd, t := a.costoEquity / 100.0, a.tassoInteresse / 100.0, 1.0 - a.aliquotaFiscale / 100.0;
    var we, wd := a.percEquity / 100.0, PercDebito(a) / 100.0;
    assert Wacc(a) == we * ke + wd * (kd * t);
    WeightedAverageBounds(we, ke, wd, kd * t);
  }

  // ---------------------------------------------------------------------
  // Valuation series, NPV and DSCR
  // ---------------------------------------------------------------------

  /** The valuation series: -CAPEX, then the cash flow of each operation year in order. */
  lemma FormaFlussiProgetto(a: Ipotesi)
    requires a.Valid()
    ensures FlussiProgetto(a)[0] == -a.capex
    ensures forall t :: 1 <= t < |FlussiProgetto(a)| ==>
      FlussiProgetto(a)[t] == FlussoCassaOperativo(a)[a.durataCostruzione + t - 1]
  {
  }

  /** The project NPV: CAPEX at time 0 against the operation cash flows discounted from time 1 on. */
  lemma VanScomposto(a: Ipotesi)
    requires a.Valid()
    ensures VanProgetto(a) == -a.capex + Npv(Wacc(a), FlussoCassaOperativo(a)[a.durataCostruzione..]) / (1.0 + Wacc(a))
  {
    var w, flussi := Wacc(a), FlussoCassaOperativo(a)[a.durataCostruzione..];
    assert VanProgetto(a) == Npv(w, [-a.capex] + flussi);
    NpvCons(w, -a.capex, flussi);
  }

  /** The levered series: the equity outlay, then timeline index j carries cash flow minus debt service. */
  lemma FormaFlussiEquity(a: Ipotesi)
    requires a.Valid()
    ensures FlussiEquity(a)[0] == -EquityIniziale(a)
    ensures forall j :: 1 <= j < Durata(a) ==>
      FlussiEquity(a)[j] == FlussoCassaOperativo(a)[j] - RataAnnua(a)[j]
  {
  }

  /**
   * Dropping timeline index 0 from the levered series loses nothing: the first
   * construction year has neither cash flow nor debt service, so the series adds
   * up to all cash flows, less all debt service, less the equity outlay.
   */
  lemma SommaFlussiEquity(a: Ipotesi)
    requires a.Valid()
    ensures Sum(FlussiEquity(a)) == -EquityIniziale(a) + Sum(FlussoCassaOperativo(a)) - Sum(RataAnnua(a))
  {
    var cf, rata := FlussoCassaOperativo(a), RataAnnua(a);
    AnnoCostruzione(a, 0);
    var tail := Minus(cf[1..], rata[1..]);
    assert FlussiEquity(a)[1..] == tail;
    SumMinus(cf[1..], rata[1..]);
    assert Sum(cf) == cf[0] + Sum(cf[1..]);
    assert Sum(rata) == rata[0] + Sum(rata[1..]);
  }

  /** Each operation year's DSCR: defined exactly when there is debt, and then cash flow over the level payment. */
  lemma {:induction false} DscrAnno(a: Ipotesi, k: nat)
    requires a.Valid() && k < a.durataGestione
    ensures Dscr(a)[k].Some? <==> a.percEquity < 100.0
    ensures Dscr(a)[k].Some? ==> Dscr(a)[k].value == FlussoCassaOperativo(a)[a.durataCostruzione + k] / Rata(a)
  {
    AnnoGestione(a, k);
    DebitoEstinto(a, Rata(a));
  }

  /** At a zero debt rate the DSCR is cash flow over debt / durataGestione. */
  lemma {:induction false} DscrTassoZero(a: Ipotesi, k: nat)
    requires a.Valid() && k < a.durataGestione
    requires a.tassoInteresse == 0.0 && a.percEquity < 100.0
    ensures Dscr(a)[k] == Some(FlussoCassaOperativo(a)[a.durataCostruzione + k] / (DebitoIniziale(a) / a.durataGestione as real))
  {
    DscrAnno(a, k);
    RataTassoZero(a);
  }

  /** Some year has a DSCR exactly when there is debt, and then every year has one. */
  lemma DscrDefinito(a: Ipotesi)
    requires a.Valid()
    ensures (exists k :: 0 <= k < |Dscr(a)| && Dscr(a)[k].Some?) <==> a.percEquity < 100.0
    ensures a.percEquity < 100.0 ==> forall k :: 0 <= k < |Dscr(a)| ==> Dscr(a)[k].Some?
  {
    forall k | 0 <= k < a.durataGestione ensures Dscr(a)[k].Some? <==> a.percEquity < 100.0 {
      DscrAnno(a, k);
    }
    if a.percEquity < 100.0 {
      assert Dscr(a)[0].Some?;
    }
  }

  /** With debt, the mean of the yearly DSCRs is the mean cash flow over the level payment. */
  lemma DscrMediaFlussi(a: Ipotesi)
    requires a.Valid()
    ensures a.percEquity < 100.0 ==>
      NanMean(Dscr(a)) == Some(Mean(FlussoCassaOperativo(a)[a.durataCostruzione..]) / Rata(a))
  {
    if a.percEquity < 100.0 {
      DscrMediaConDebito(a);
    }
  }

  lemma DscrMediaConDebito(a: Ipotesi)
    requires a.Valid() && a.percEquity < 100.0
    ensures NanMean(Dscr(a)) == Some(Mean(FlussoCassaOperativo(a)[a.durataCostruzione..]) / Rata(a))
  {
    var flussi, rata := FlussoCassaOperativo(a)[a.durataCostruzione..], Rata(a);
    DscrDefinito(a);
    DefinedAll(Dscr(a));
    var d := Defined(Dscr(a));
    var quozienti := seq(|flussi|, i requires 0 <= i < |flussi| => flussi[i] / rata);
    forall k | 0 <= k < a.durataGestione ensures d[k] == quozienti[k] {
      DscrAnno(a, k);
    }
    assert d == quozienti;
    SumDividedBy(flussi, rata);
    var somma, n := Sum(flussi), |flussi| as real;
    DivideTwice(somma, rata, n);
    DivideTwice(somma, n, rata);
    assert n * rata == rata * n;
    assert Mean(d) == somma / rata / n;
  }

  /** Mean and minimum DSCR are defined exactly when there is debt, and then minimum <= mean. */
  lemma DscrAggregati(a: Ipotesi)
    requires a.Valid()
    ensures DscrMin(a).Some? <==> a.percEquity < 100.0
    ensures DscrMedio(a).Some? <==> a.percEquity < 100.0
    ensures DscrMin(a).Some? ==> DscrMin(a).value <= DscrMedio(a).value
  {
    NanMinAtMostNanMean(Dscr(a));
  }

  /** The worked example: CAPEX 1,000,000, opex 100,000, revenue 500,000, 2% inflation, 2 + 10 years, 4% debt, 24% tax, 30% equity at 8%. */
  lemma Esempio()
    ensures var a := Ipotesi(1000000.0, 100000.0, 500000.0, 2.0, 2, 10, 4.0, 24.0, 30.0, 8.0);
      && Wacc(a) == 0.04528
      && Ebitda(a)[2] == 400000.0 && Ammortamenti(a)[2] == 100000.0
      && Ebit(a)[2] == 300000.0 && Imposte(a)[2] == 72000.0
      && UtileNetto(a)[2] == 228000.0 && FlussoCassaOperativo(a)[2] == 328000.0
  {
    var a := Ipotesi(1000000.0, 100000.0, 500000.0, 2.0, 2, 10, 4.0, 24.0, 30.0, 8.0);
    PrimoAnnoGestione(a);
    ContoEconomico(a, 2);
  }
}
