# PEFTOY project-finance model in Dafny

PEFTOY is a small project-finance planner ("piano economico-finanziario", PEF).
From a handful of scalar assumptions (CAPEX, opex, revenue, inflation, years of
construction and of operation, debt rate, tax rate, equity share, cost of
equity) it builds a year-by-year projection and a few indicators (WACC,
project NPV, DSCR). It then gives the project a bankability verdict: green,
yellow or red, with the list of thresholds it misses.

This project models the two pieces that compute:

- `calcola_pef` (`PEFTOY/pef_logica_economica.py`), the projection engine. It
  is pure: every series is a list comprehension or an element-wise numpy
  expression, and every indicator but WACC (a plain formula) is a library
  call (`pmt`, `npv`, `nanmean`, `nanmin`, and the left-out `irr`). The model
  follows that shape, with functions over `seq<real>` and recursive sums.
  - Module `Series`: the numpy operations the engine uses: powers, element-wise
    `-`/`+`, `maximum`, sums, and `nanmin`/`nanmean` over a series whose
    undefined entries are `None`.
  - Module `Npf`: closed forms of `numpy_financial.pmt` and `numpy_financial.npv`.
    It also defines `Value`, the time-value-of-money recursion that `pmt` solves.
  - Module `Pef`: the assumptions record `Ipotesi` and one function per series
    and indicator of `calcola_pef`, under the source's own names. `CalcolaPef`
    assembles them. Lemmas state what each year and each total satisfy.
- `valuta_bancabilita` (`PEFTOY/peftoy.py`), the verdict. The source builds
  the list of failed thresholds step by step. The model is the method
  `Bancabilita.ValutaBancabilita`, which assigns the state in if/else branches
  and appends to the list in the same order. The function `Classifica` is the
  decision table that specifies the state, and monotonicity is proved about it.

All quantities are exact `real`s. Percentages are numbers from 0 to 100, as
the source uses them. Timeline index `i` (0-based) is year `i + 1`. Operation
offset `k` is timeline index `durataCostruzione + k`.

Modelling choices:

- The code takes rates as percentages, not as fractions.
- The code validates nothing. The precondition `Ipotesi.Valid()` takes the
  lower bounds of the page's input form (`PEFTOY/peftoy.py:192-204`), two of
  them weakened as "## Left out" says, and the equity slider's range. It
  adds an upper bound on the tax rate:
  - CAPEX > 0;
  - revenue and opex ≥ 0;
  - both durations ≥ 1;
  - interest, inflation and cost of equity ≥ 0;
  - equity share between 0 and 100 (the slider's range);
  - tax rate between 0 and 100 (the form gives only the lower bound).

  The model has no error value: inputs outside `Ipotesi.Valid()` are excluded by the precondition.
- The levered series is built exactly as written (`PEFTOY/pef_logica_economica.py:84-86`).
  Timeline index 0 is dropped, and the equity outlay takes its place.
  `Pef.SommaFlussiEquity` shows that no cash is lost this way, because the
  first construction year has neither cash flow nor debt service. The series
  does use a different time axis from the project series. In the project
  series the first operation year is at index 1. In the equity series it is at
  index `durataCostruzione`.

## Model

| member | source | states |
|---|---|---|
| `Series.Pow` | PEFTOY/pef_logica_economica.py:52 | the inflation factor `(1+inflazione/100)**k` is positive for a positive base, at least 1 for a base at least 1, and above 1 for a base above 1 and k ≥ 1 |
| `Series.Min` | PEFTOY/pef_logica_economica.py:105 | the minimum of a non-empty series is one of its entries and no entry is smaller |
| `Series.MinAtMostMean` | PEFTOY/pef_logica_economica.py:104-105 | the minimum of a series never exceeds its arithmetic mean |
| `Series.NanMinAtMostNanMean` | PEFTOY/pef_logica_economica.py:103-105 | NaN-skipping min and mean are defined exactly when some entry is defined, and then min ≤ mean |
| `Series.Mean` | PEFTOY/pef_logica_economica.py:104 | the mean of a non-empty series, taken once per entry, gives the sum |
| `Series.Defined` | PEFTOY/pef_logica_economica.py:104-105 | the values kept are exactly the values of the defined entries, and there are no more of them than entries |
| `Series.DefinedAll` | PEFTOY/pef_logica_economica.py:104-105 | a fully defined series keeps every value in its place, so repeated values are counted each time |
| `Series.DefinedConcat` | PEFTOY/pef_logica_economica.py:104-105 | skipping undefined entries distributes over concatenation: nothing is reordered, dropped or repeated |
| `Series.NanMean` | PEFTOY/pef_logica_economica.py:104 | `nanmean` is defined exactly when some entry is defined, and is then the mean of the defined entries: times their number it gives their sum |
| `Series.NanMin` | PEFTOY/pef_logica_economica.py:105 | `nanmin` is defined exactly when some entry is defined; it is then the value of one of the entries and no defined entry is smaller |
| `Npf.Pmt` | PEFTOY/pef_logica_economica.py:79 | the level payment solves the annuity equation `0 = pv·(1+r)^n·r + p·((1+r)^n − 1)` (`ClosedForm` with value 0), is `−pv/n` at rate 0, is 0 when `pv` is 0 and positive when `pv` is negative (a loan granted, the principal paid out by the lender) |
| `Npf.ValueTimesRate` | PEFTOY/pef_logica_economica.py:79 | the value of `pv` after k end-of-period payments `p` at rate r satisfies the annuity closed form `v·r = pv·(1+r)^k·r + p·((1+r)^k − 1)` |
| `Npf.PmtSettles` | PEFTOY/pef_logica_economica.py:79 | after `nper` payments of `p` the loan's value is 0 if and only if `p` is `Pmt` (full amortisation, and uniqueness of the level payment) |
| `Npf.Npv` | PEFTOY/pef_logica_economica.py:96 | `npv` of a single flow is that flow (the first flow is not discounted), and flows that are all non-negative have a non-negative NPV |
| `Npf.NpvCons` | PEFTOY/pef_logica_economica.py:96 | `npv` with the first flow undiscounted satisfies Horner's recurrence `npv(r, [x]+v) = x + npv(r, v)/(1+r)` |
| `Npf.NpvAtZeroRate` | PEFTOY/pef_logica_economica.py:96 | at a zero rate `npv` is the plain sum of the flows |
| `Pef.RicaviAnnui` | PEFTOY/pef_logica_economica.py:51-53 | the revenue series has one entry per timeline year |
| `Pef.OpexAnnui` | PEFTOY/pef_logica_economica.py:54-56 | the opex series has one entry per timeline year |
| `Pef.Investimenti` | PEFTOY/pef_logica_economica.py:59-61 | the investment series has one entry per timeline year |
| `Pef.Ebitda` | PEFTOY/pef_logica_economica.py:64 | the EBITDA series has one entry per timeline year |
| `Pef.Ammortamenti` | PEFTOY/pef_logica_economica.py:65-67 | the depreciation series has one entry per timeline year |
| `Pef.Ebit` | PEFTOY/pef_logica_economica.py:68 | the EBIT series has one entry per timeline year |
| `Pef.Tassa` | PEFTOY/pef_logica_economica.py:71 | tax on one year's EBIT is 0 when EBIT ≤ 0, and for a tax rate between 0 and 100 lies between 0 and max(EBIT, 0) |
| `Pef.Imposte` | PEFTOY/pef_logica_economica.py:71 | the tax series has one entry per timeline year |
| `Pef.UtileNetto` | PEFTOY/pef_logica_economica.py:72 | the net income series has one entry per timeline year |
| `Pef.FlussoCassaOperativo` | PEFTOY/pef_logica_economica.py:75 | the operating cash-flow series has one entry per timeline year |
| `Pef.PercDebito` | PEFTOY/pef_logica_economica.py:47 | the debt share is the complement of the equity share, between 0 and 100 |
| `Pef.Percentuale` | PEFTOY/pef_logica_economica.py:78 | a percentage share `c·(perc/100)` is 0 of nothing, lies between 0 and the amount for 0–100%, and is 0 of a positive amount only at 0% |
| `Pef.DebitoIniziale` | PEFTOY/pef_logica_economica.py:78 | the debt raised lies between 0 and CAPEX, and is 0 exactly when equity is 100% |
| `Pef.Rata` | PEFTOY/pef_logica_economica.py:79 | the level payment clears the initial debt over the operation years at the debt rate, is never negative, and is positive exactly when equity is below 100% |
| `Pef.RataAnnua` | PEFTOY/pef_logica_economica.py:80 | the debt-service series has one entry per timeline year |
| `Pef.FlussiEquity` | PEFTOY/pef_logica_economica.py:84-86 | the levered series has one entry per timeline year (outlay plus indices 1..end) |
| `Pef.EquityIniziale` | PEFTOY/pef_logica_economica.py:83 | the equity paid in lies between 0 and CAPEX |
| `Pef.Wacc` | PEFTOY/pef_logica_economica.py:88-93 | WACC is never negative, so NPV discounting at it is defined |
| `Pef.FlussiProgetto` | PEFTOY/pef_logica_economica.py:96 | the valuation series has `durataGestione + 1` entries |
| `Pef.VanProgetto` | PEFTOY/pef_logica_economica.py:96 | the project NPV is `npv` at WACC of the valuation series, and when WACC is 0 it is the plain sum of that series |
| `Pef.Dscr` | PEFTOY/pef_logica_economica.py:103 | there is one DSCR entry per operation year |
| `Pef.DscrMedio` | PEFTOY/pef_logica_economica.py:104 | the mean DSCR is defined exactly when equity is below 100%, and is then the mean operating cash flow of the operation years over the level payment |
| `Pef.DscrMediaFlussi` | PEFTOY/pef_logica_economica.py:103-104 | with debt, `nanmean` of the yearly DSCRs equals the mean operation-year cash flow divided by the level payment |
| `Pef.DscrMin` | PEFTOY/pef_logica_economica.py:105 | the minimum DSCR is defined exactly when equity is below 100%; it is then one year's DSCR, every year has a DSCR, and none is smaller |
| `Pef.CalcolaPef` | PEFTOY/pef_logica_economica.py:40-119 | every returned series has one entry per timeline year; WACC ≥ 0; mean and minimum DSCR are defined exactly when equity is below 100%, and then minimum ≤ mean |
| `Pef.AnnoCostruzione` | PEFTOY/pef_logica_economica.py:51-80 | in a construction year revenue, opex, depreciation, debt service, EBIT, tax and cash flow are 0 and the investment is `capex/durataCostruzione` |
| `Pef.AnnoGestione` | PEFTOY/pef_logica_economica.py:51-80 | at operation offset k revenue and opex are the base values times `(1+inflazione/100)^k`, investment is 0, depreciation is `capex/durataGestione` and debt service is the level payment |
| `Pef.PrimoAnnoGestione` | PEFTOY/pef_logica_economica.py:51-56 | the first operation year carries the base revenue and opex unchanged |
| `Pef.RicaviCrescenti` | PEFTOY/pef_logica_economica.py:51-53 | with non-negative inflation, revenue never falls from one operation year to the next |
| `Pef.ContoEconomico` | PEFTOY/pef_logica_economica.py:64-75 | every year: EBITDA = revenue − opex, EBIT = EBITDA − depreciation, tax = max(EBIT,0)·aliquota/100 (0 when EBIT ≤ 0, between 0 and max(EBIT,0)), net income = EBIT − tax, cash flow = net income + depreciation = EBITDA − tax |
| `Pef.TotaleInvestimenti` | PEFTOY/pef_logica_economica.py:59-61 | the yearly investments add up to CAPEX |
| `Pef.TotaleAmmortamenti` | PEFTOY/pef_logica_economica.py:65-67 | the yearly depreciation charges add up to CAPEX |
| `Pef.StrutturaFinanziaria` | PEFTOY/pef_logica_economica.py:47-83 | equity and debt are non-negative and add up to CAPEX; there is no debt exactly when equity is 100% |
| `Pef.DebitoEstinto` | PEFTOY/pef_logica_economica.py:78-80 | the level payment repays the initial debt over the operation years at the debt rate, and no other constant payment does; it is positive exactly when equity is below 100% |
| `Pef.RataTassoZero` | PEFTOY/pef_logica_economica.py:78-80 | at a zero debt rate each payment is debt / durataGestione and the payments add up to the debt |
| `Pef.WaccMedia` | PEFTOY/pef_logica_economica.py:88-93 | WACC lies between the cost of equity and the after-tax cost of debt; it is the cost of equity at 100% equity and the after-tax cost of debt at 0% |
| `Pef.FormaFlussiProgetto` | PEFTOY/pef_logica_economica.py:96 | the valuation series is −CAPEX followed by the operation-year cash flows in order |
| `Pef.VanScomposto` | PEFTOY/pef_logica_economica.py:96 | the project NPV is −CAPEX plus the operation cash flows discounted at WACC from time 1 on |
| `Pef.FormaFlussiEquity` | PEFTOY/pef_logica_economica.py:83-86 | the levered series starts with −capex·percEquity/100 and entry j ≥ 1 is cash flow[j] − debt service[j] |
| `Pef.SommaFlussiEquity` | PEFTOY/pef_logica_economica.py:84-86 | the levered series sums to −equity + all cash flows − all debt service: dropping index 0 loses nothing |
| `Pef.DscrAnno` | PEFTOY/pef_logica_economica.py:103 | an operation year's DSCR is defined exactly when equity is below 100%, and then equals cash flow over the level payment |
| `Pef.DscrTassoZero` | PEFTOY/pef_logica_economica.py:103 | at a zero debt rate the DSCR is cash flow over (debt / durataGestione) exactly |
| `Pef.DscrAggregati` | PEFTOY/pef_logica_economica.py:103-105 | mean and minimum DSCR are defined exactly when equity is below 100%, and minimum ≤ mean |
| `Pef.Esempio` | PEFTOY/pef_logica_economica.py:64-93 | for CAPEX 1,000,000, opex 100,000, revenue 500,000, 2% inflation, 2+10 years, 4% debt, 24% tax, 30% equity at 8%: WACC = 0.04528 and the first operation year has EBITDA 400,000, depreciation 100,000, EBIT 300,000, tax 72,000, net income 228,000, cash flow 328,000 |
| `Bancabilita.Classifica` | PEFTOY/peftoy.py:267-272 | green iff IRR > WACC ∧ NPV > 0 ∧ DSCR > 1.2; yellow iff IRR > WACC ∧ NPV > 0 ∧ 1.0 ≤ DSCR ≤ 1.2; red iff not (IRR > WACC ∧ NPV > 0 ∧ DSCR ≥ 1.0) |
| `Bancabilita.ValutaBancabilita` | PEFTOY/peftoy.py:265-287 | the state is the decision table's; "TIR ≤ WACC" is listed iff ¬(IRR > WACC), "VAN ≤ 0" iff ¬(NPV > 0), "DSCR < 1.0" iff DSCR < 1.0, "DSCR ≤ 1.2" iff 1.0 ≤ DSCR ≤ 1.2; entries come in the order IRR, NPV, DSCR, at most 3; the list is empty iff green; yellow lists only "DSCR ≤ 1.2" |
| `Bancabilita.ClassificaMonotona` | PEFTOY/peftoy.py:267-272 | the verdict never gets worse when IRR, NPV or minimum DSCR rise or WACC falls |

## Left out

- The IRRs (`npf.irr`, `PEFTOY/pef_logica_economica.py:97` and `:100`) are left out. They come from a library root finder with no closed form. The project IRR is an input of the verdict, and the result record has no IRR fields.
- The pandas DataFrame (`PEFTOY/pef_logica_economica.py:108-117`) is left out. `CalcolaPef` returns the same columns in a record, without the year labels `anni`. The record also carries the levered series `flussiEquity`, which `calcola_pef` does not return: there it only feeds `tir_equity`, which the model leaves out.
- The Streamlit page is left out: widgets, metrics, formatting, explanations, the coloured banners. This is everything in `PEFTOY/peftoy.py` outside lines 265-287, including the two call sites (lines 212-216 and 289). The model does not feed a DSCR that may be undefined into the verdict.
- Floating-point behaviour is left out. All quantities are exact reals, so rounding is not modelled. Where numpy would divide by a zero debt service (100% equity) and get inf or NaN, the model marks that year's DSCR as undefined. The mean and minimum then skip it, so `nanmean`/`nanmin` see no inf. NaN comparisons in the verdict are not modelled either.
- The default argument `costo_equity=8.0` is not modelled. Every `Ipotesi` states its cost of equity.
- `Npf.Pmt` covers only the defaults the source relies on: `fv = 0` and payments at period end.
- Some bounds of the input form are not part of `Ipotesi.Valid()`, because no formula needs them: at most 5 construction years, at most 50 operation years, CAPEX ≥ 10,000 (a stronger lower bound than CAPEX > 0), and cost of equity ≥ 1.
- `Ipotesi.Valid()` assumes a tax rate of at most 100%, which the input form does not enforce. Above 100% the after-tax cost of debt is negative, so `Pef.Wacc` could be negative, and even −1 or below, outside `Npv`'s `rate > -1` precondition (at exactly −1 `npv` divides by zero). The model does not cover such tax rates.
- `Pef.RataAnnua`, `Pef.Ebit` and the other series functions state only their length in their own contract. What each entry holds is stated by the lemmas `AnnoCostruzione`, `AnnoGestione` and `ContoEconomico`.
