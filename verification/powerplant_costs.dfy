/** Cost and unit arithmetic of the power-plant attachment step over exact
    reals: annuity factors, `/kW` to `/MW` normalisation, capital and
    marginal cost formulas, storage and solar combinations, transmission
    costs, `normed`, carrier completion and EIA plant unit conversions.
    A floating-point division by zero that numpy turns into inf or NaN is
    modelled as `None`; one that Python raises on is a `Failure`. */
module PowerplantCosts {
  import opened Outcomes
  import opened Strings
  import opened Seqs

  datatype CostError =
    | ZeroDivision                          // ZeroDivisionError
    | UnknownTechnologies(names: set<string>) // KeyError of a `.loc` assignment

  /** `calculate_annuity(n, r)` for a scalar rate: the annuity formula when
      r > 0, straight-line 1/n otherwise; n = 0 raises ZeroDivisionError
      on both paths. */
  function AnnuityScalar(n: nat, r: real): (a: Result<real, CostError>)
    ensures a.Success? <==> n >= 1
    ensures a.Success? && r > 0.0 ==> Pow(1.0 + r, n) > 1.0 && a.value * (1.0 - 1.0 / Pow(1.0 + r, n)) == r
    ensures a.Success? && r > 0.0 ==> a.value > r
    ensures a.Success? && r <= 0.0 ==> a.value * (n as real) == 1.0
  {
    if r > 0.0 then
      // (1 + r)^0 = 1 makes the denominator zero
      if n == 0 then Failure(ZeroDivision)
      else
        PowAboveOne(1.0 + r, n);
        AnnuityFormulaBounds(r, Pow(1.0 + r, n));
        Success(r / (1.0 - 1.0 / Pow(1.0 + r, n)))
    else if n == 0 then Failure(ZeroDivision)
    else Success(1.0 / (n as real))
  }

  /** For a positive rate the annuity denominator lies strictly between 0
      and 1, so the annuity factor exceeds the rate. */
  lemma AnnuityFormulaBounds(r: real, p: real)
    requires r > 0.0 && p > 1.0
    ensures 0.0 < 1.0 - 1.0 / p < 1.0
    ensures (r / (1.0 - 1.0 / p)) * (1.0 - 1.0 / p) == r
    ensures r / (1.0 - 1.0 / p) > r
  {
    var q := 1.0 / p;
    assert q * p == 1.0;
    assert 0.0 < q < 1.0;
    var d := 1.0 - q;
    var a := r / d;
    assert a * d == r;
    assert a > 0.0;
    MulLess(a, d, 1.0);
  }

  /** Multiplying a positive number by a smaller factor gives a smaller product. */
  lemma MulLess(a: real, x: real, y: real)
    requires a > 0.0 && x < y
    ensures a * x < a * y
  {
  }

  /** A non-zero factor cancels. */
  lemma MulCancel(x: real, y: real, d: real)
    requires d != 0.0 && x * d == y * d
    ensures x == y
  {
    assert (x - y) * d == 0.0;
  }

  /** Multiplying by a non-negative number preserves order. */
  lemma MulMonotone(a: real, x: real, y: real)
    requires a >= 0.0 && x <= y
    ensures a * x <= a * y
  {
  }

  /** One element of `calculate_annuity` applied to a pandas Series: 1/n
      only where r == 0, the formula everywhere else (negative rates
      included), with numpy's inf/NaN for divisions by zero. At r == -1
      numpy evaluates r / (1 - inf) to 0. */
  function AnnuityElement(n: nat, r: real): (a: Option<real>)
    ensures r == 0.0 ==> a == (if n == 0 then None else Some(1.0 / (n as real)))
    ensures r == -1.0 && n >= 1 ==> a == Some(0.0)
    ensures r != 0.0 && Pow(1.0 + r, n) != 0.0 ==>
      (a.Some? <==> Pow(1.0 + r, n) != 1.0) &&
      (a.Some? ==> a.value * (1.0 - 1.0 / Pow(1.0 + r, n)) == r)
  {
    if r == 0.0 then
      if n == 0 then None else Some(1.0 / (n as real))
    else
      var p := Pow(1.0 + r, n);
      if p == 0.0 then Some(0.0)
      else
        var d := 1.0 - 1.0 / p;
        assert d == 0.0 <==> p == 1.0 by {
          assert (1.0 / p) * p == 1.0;
        }
        if d == 0.0 then None
        else
          assert (r / d) * d == r;
          Some(r / d)
  }

  /** For non-negative rates the Series path and the scalar path agree. */
  lemma AnnuityPathsAgree(n: nat, r: real)
    requires n >= 1 && r >= 0.0
    ensures AnnuityElement(n, r) == Some(AnnuityScalar(n, r).value)
  {
    if r > 0.0 {
      PowAboveOne(1.0 + r, n);
      AnnuityFormulaBounds(r, Pow(1.0 + r, n));
    }
  }

  /** For a negative rate and a one-year lifetime the Series path yields
      1 + r while the scalar path yields 1: the two paths disagree. */
  lemma AnnuityPathsDisagreeForNegativeRate(r: real)
    requires -1.0 < r < 0.0
    ensures AnnuityElement(1, r) == Some(1.0 + r)
    ensures AnnuityScalar(1, r) == Success(1.0)
  {
    assert Pow(1.0 + r, 1) == 1.0 + r;
    var q := 1.0 / (1.0 + r);
    assert q * (1.0 + r) == 1.0;
    var d := 1.0 - q;
    assert d * (1.0 + r) == r;
    assert d != 0.0;
    assert (r / d) * d == r;
    MulCancel(r / d, 1.0 + r, d);
  }

  const PerKw: string := "/kW"
  const PerMw: string := "/MW"

  /** `/kW` starts at position `i`, spelled out character by character. */
  predicate KwAt(s: string, i: int)
  {
    0 <= i && i + 3 <= |s| && s[i] == '/' && s[i + 1] == 'k' && s[i + 2] == 'W'
  }

  lemma KwAtOccurs(s: string, i: int)
    ensures KwAt(s, i) <==> OccursAt(s, PerKw, i)
  {
    if 0 <= i && i + 3 <= |s| {
      assert s[i..i + 3] == [s[i], s[i + 1], s[i + 2]];
    }
  }

  /** `str.replace("/kW", "/MW")`: left to right, non-overlapping. Only the
      `k` of each occurrence changes, into `M`. */
  function ReplacePerKw(s: string): (r: string)
    ensures |r| == |s|
    ensures forall i :: 0 <= i < |s| ==> r[i] == (if KwAt(s, i - 1) then 'M' else s[i])
  {
    if |s| == 0 then s
    else if KwAt(s, 0) then
      var rest := ReplacePerKw(s[3..]);
      var r := PerMw + rest;
      forall i | 3 <= i < |s| ensures r[i] == (if KwAt(s, i - 1) then 'M' else s[i]) {
        assert r[i] == rest[i - 3] && s[3..][i - 3] == s[i];
        if i >= 4 {
          assert s[3..][i - 4] == s[i - 1];
          assert i - 2 < |s| ==> s[3..][i - 3] == s[i];
          assert i - 1 < |s| - 2 ==> s[3..][i - 2] == s[i + 1];
        }
      }
      r
    else
      var rest := ReplacePerKw(s[1..]);
      var r := [s[0]] + rest;
      forall i | 1 <= i < |s| ensures r[i] == (if KwAt(s, i - 1) then 'M' else s[i]) {
        assert r[i] == rest[i - 1] && s[1..][i - 1] == s[i];
        if i >= 2 {
          assert s[1..][i - 2] == s[i - 1];
          assert i + 1 < |s| ==> s[1..][i] == s[i + 1];
        }
      }
      r
  }

  /** After the replacement no `/kW` is left. */
  lemma NoPerKwAfterReplace(s: string)
    ensures !Contains(ReplacePerKw(s), PerKw)
  {
    var r := ReplacePerKw(s);
    forall i | 0 <= i <= |r| ensures !OccursAt(r, PerKw, i) {
      NoPerKwAt(s, i);
      KwAtOccurs(r, i);
    }
  }

  lemma NoPerKwAt(s: string, i: int)
    requires 0 <= i
    ensures !KwAt(ReplacePerKw(s), i)
  {
    var r := ReplacePerKw(s);
    if i + 3 <= |r| && !KwAt(s, i) {
      assert r[i + 1] == s[i + 1];
    }
  }

  /** A unit without `/kW` is left untouched. */
  lemma ReplaceWithoutPerKw(s: string)
    requires !Contains(s, PerKw)
    ensures ReplacePerKw(s) == s
  {
    var r := ReplacePerKw(s);
    forall i | 0 <= i < |s| ensures r[i] == s[i] {
      KwAtOccurs(s, i - 1);
    }
  }

  /** One row of the technology-data table. */
  datatype CostEntry = CostEntry(technology: string, parameter: string, value: real, unit: string)

  /** The `/kW` correction of `load_costs`: rows whose unit mentions `/kW`
      are scaled by 1000 and every unit is rewritten to `/MW`. */
  function NormaliseUnit(e: CostEntry): (r: CostEntry)
    ensures r.technology == e.technology && r.parameter == e.parameter
    ensures !Contains(r.unit, PerKw)
    ensures Contains(e.unit, PerKw) ==> r.value == 1000.0 * e.value
    ensures !Contains(e.unit, PerKw) ==> r == e
    ensures r.unit == ReplacePerKw(e.unit)
  {
    NoPerKwAfterReplace(e.unit);
    if !Contains(e.unit, PerKw) then ReplaceWithoutPerKw(e.unit); e.(unit := ReplacePerKw(e.unit))
    else e.(value := 1000.0 * e.value, unit := ReplacePerKw(e.unit))
  }

  /** `unstack().fillna(fill_values)` for one technology: among the table's
      columns, a missing parameter takes the configured default if there
      is one and stays missing otherwise. */
  function FillDefaults(params: map<string, real>, defaults: map<string, real>, columns: set<string>): (r: map<string, real>)
    ensures r.Keys == columns * (params.Keys + defaults.Keys)
    ensures forall c :: c in r && c in params ==> r[c] == params[c]
    ensures forall c :: c in r && c !in params ==> r[c] == defaults[c]
  {
    map c | c in columns && (c in params || c in defaults) ::
      if c in params then params[c] else defaults[c]
  }

  /** The parameters of one technology after unstacking. */
  datatype TechParameters = TechParameters(
    investment: real, fom: real, vom: real, fuel: real, efficiency: real,
    lifetime: nat, discountRate: real)

  /** The annualised cost of one unit of capacity: annuity plus fixed
      O&M (a percentage of investment), times investment and horizon. */
  function AnnualisedCost(annuity: real, fomPercent: real, investment: real, nYears: real): (c: real)
    ensures investment >= 0.0 && nYears >= 0.0 && annuity + fomPercent / 100.0 >= 0.0 ==> c >= 0.0
  {
    (annuity + fomPercent / 100.0) * investment * nYears
  }

  /** `capital_cost` of `load_costs`, with the annuity of the Series path;
      missing wherever that annuity is non-finite. */
  function CapitalCost(p: TechParameters, nYears: real): (c: Option<real>)
    ensures c.Some? <==> AnnuityElement(p.lifetime, p.discountRate).Some?
    ensures c.Some? ==> c.value == AnnualisedCost(AnnuityElement(p.lifetime, p.discountRate).value, p.fom, p.investment, nYears)
  {
    match AnnuityElement(p.lifetime, p.discountRate)
    case None => None
    case Some(a) => Some(AnnualisedCost(a, p.fom, p.investment, nYears))
  }

  /** Annualised cost grows linearly with the modelled horizon. */
  lemma AnnualisedCostLinearInYears(annuity: real, fomPercent: real, investment: real, nYears: real, k: real)
    ensures AnnualisedCost(annuity, fomPercent, investment, k * nYears) == k * AnnualisedCost(annuity, fomPercent, investment, nYears)
  {
    var x := (annuity + fomPercent / 100.0) * investment;
    assert x * (k * nYears) == k * (x * nYears);
  }

  /** With a zero discount rate the capital cost is straight-line
      depreciation plus fixed O&M. */
  lemma CapitalCostAtZeroRate(p: TechParameters, nYears: real)
    requires p.discountRate == 0.0 && p.lifetime >= 1
    ensures CapitalCost(p, nYears) == Some(AnnualisedCost(1.0 / (p.lifetime as real), p.fom, p.investment, nYears))
  {
  }

  /** `marginal_cost = VOM + fuel / efficiency`; zero efficiency divides by zero. */
  function MarginalCost(vom: real, fuel: real, efficiency: real): (c: Option<real>)
    ensures c.Some? <==> efficiency != 0.0
    ensures c.Some? ==> (c.value - vom) * efficiency == fuel
  {
    if efficiency == 0.0 then None else Some(vom + fuel / efficiency)
  }

  /** The blended solar capital cost: `share * rooftop + (1 - share) * utility`. */
  function SolarCapitalCost(rooftopShare: real, rooftop: real, utility: real): (c: real)
    ensures 0.0 <= rooftopShare <= 1.0 && rooftop <= utility ==> rooftop <= c <= utility
    ensures 0.0 <= rooftopShare <= 1.0 && utility <= rooftop ==> utility <= c <= rooftop
    ensures rooftopShare == 0.0 ==> c == utility
    ensures rooftopShare == 1.0 ==> c == rooftop
  {
    var c := rooftopShare * rooftop + (1.0 - rooftopShare) * utility;
    if 0.0 <= rooftopShare <= 1.0 then
      WeightedBetween(1.0 - rooftopShare, rooftop, utility);
      c
    else c
  }

  datatype StorageCosts = StorageCosts(capitalCost: real, marginalCost: real, co2Emissions: real)

  /** `costs_for_storage`: one charging link, `max_hours` of energy store and
      an optional discharging link; storage has no marginal cost or emissions. */
  function CostsForStorage(store: real, link1: real, link2: Option<real>, maxHours: real): (c: StorageCosts)
    ensures c.marginalCost == 0.0 && c.co2Emissions == 0.0
    ensures c.capitalCost - link1 - (if link2.Some? then link2.value else 0.0) == maxHours * store
  {
    var capital := link1 + maxHours * store;
    StorageCosts(if link2.Some? then capital + link2.value else capital, 0.0, 0.0)
  }

  /** A second link adds exactly its own capital cost. */
  lemma StorageSecondLinkAdds(store: real, link1: real, link2: real, maxHours: real)
    ensures CostsForStorage(store, link1, Some(link2), maxHours).capitalCost
      == CostsForStorage(store, link1, None, maxHours).capitalCost + link2
  {
  }

  /** More hours of a non-negative-cost store never make storage cheaper. */
  lemma StorageMonotoneInHours(store: real, link1: real, link2: Option<real>, h1: real, h2: real)
    requires store >= 0.0 && h1 <= h2
    ensures CostsForStorage(store, link1, link2, h1).capitalCost <= CostsForStorage(store, link1, link2, h2).capitalCost
  {
    MulMonotone(store, h1, h2);
    assert h1 * store <= h2 * store;
  }

  /** The configured `marginal_cost` / `capital_cost` overwrites, if any.
      Assigning through `.loc` to technologies that are not rows of the
      table raises KeyError. */
  function ApplyOverwrites(column: map<string, real>, overwrites: Option<map<string, real>>)
    : (r: Result<map<string, real>, CostError>)
    ensures overwrites.None? ==> r == Success(column)
    ensures r.Failure? <==> overwrites.Some? && !(overwrites.value.Keys <= column.Keys)
    ensures r.Failure? ==> r.error == UnknownTechnologies(overwrites.value.Keys - column.Keys)
    ensures r.Success? ==> r.value.Keys == column.Keys
    ensures r.Success? && overwrites.Some? ==> forall t :: t in overwrites.value ==> r.value[t] == overwrites.value[t]
    ensures r.Success? ==> forall t :: t in column && (overwrites.None? || t !in overwrites.value) ==> r.value[t] == column[t]
  {
    match overwrites
    case None => Success(column)
    case Some(o) =>
      if o.Keys <= column.Keys then Success(column + o)
      else Failure(UnknownTechnologies(o.Keys - column.Keys))
  }

  /** Applying the same overwrites a second time changes nothing. */
  lemma ApplyOverwritesIdempotent(column: map<string, real>, overwrites: Option<map<string, real>>)
    requires ApplyOverwrites(column, overwrites).Success?
    ensures ApplyOverwrites(ApplyOverwrites(column, overwrites).value, overwrites) == ApplyOverwrites(column, overwrites)
  {
    var once := ApplyOverwrites(column, overwrites).value;
    var twice := ApplyOverwrites(once, overwrites).value;
    assert twice.Keys == once.Keys;
    forall t | t in once ensures twice[t] == once[t] {
    }
    assert twice == once;
  }

  /** The per-kilometre prices `update_transmission_costs` reads. */
  datatype TransmissionPrices = TransmissionPrices(
    hvacOverhead: real, hvdcOverhead: real, hvdcSubmarine: real, hvdcInverterPair: real)

  datatype Link = Link(carrier: string, length: real, underwaterFraction: real, capitalCost: real)

  /** The capital cost of an HVAC line: the overhead price per kilometre
      of its length, stretched by the length factor. */
  function LineCapitalCost(length: real, lengthFactor: real, prices: TransmissionPrices): (c: real)
    ensures length == 0.0 || lengthFactor == 0.0 || prices.hvacOverhead == 0.0 ==> c == 0.0
    ensures length >= 0.0 && lengthFactor >= 0.0 && prices.hvacOverhead >= 0.0 ==> c >= 0.0
  {
    length * lengthFactor * prices.hvacOverhead
  }

  /** Line cost is additive in length: a line costs what its two pieces do. */
  lemma LineCapitalCostAdditive(a: real, b: real, lengthFactor: real, prices: TransmissionPrices)
    ensures LineCapitalCost(a + b, lengthFactor, prices)
      == LineCapitalCost(a, lengthFactor, prices) + LineCapitalCost(b, lengthFactor, prices)
  {
    var k := lengthFactor * prices.hvacOverhead;
    assert (a + b) * lengthFactor * prices.hvacOverhead == (a + b) * k;
    assert (a + b) * k == a * k + b * k;
  }

  /** The line half of `update_transmission_costs`: every line is priced
      from its length, whatever it cost before. */
  function UpdateLineCosts(lengths: seq<real>, lengthFactor: real, prices: TransmissionPrices): (r: seq<real>)
    ensures |r| == |lengths|
    ensures forall i :: 0 <= i < |r| ==> r[i] == LineCapitalCost(lengths[i], lengthFactor, prices)
  {
    seq(|lengths|, i requires 0 <= i < |lengths| => LineCapitalCost(lengths[i], lengthFactor, prices))
  }

  /** The capital cost of a DC link: overhead and submarine parts weighted
      by the underwater fraction, plus one inverter pair. */
  function DcLinkCost(l: Link, lengthFactor: real, prices: TransmissionPrices): (c: real)
    ensures 0.0 <= l.underwaterFraction <= 1.0 && l.length * lengthFactor >= 0.0 ==>
      var lo := if prices.hvdcOverhead <= prices.hvdcSubmarine then prices.hvdcOverhead else prices.hvdcSubmarine;
      var hi := if prices.hvdcOverhead <= prices.hvdcSubmarine then prices.hvdcSubmarine else prices.hvdcOverhead;
      l.length * lengthFactor * lo <= c - prices.hvdcInverterPair <= l.length * lengthFactor * hi
  {
    var w := l.underwaterFraction;
    var km := l.length * lengthFactor;
    ScaledWeightedBetween(km, w, prices.hvdcOverhead, prices.hvdcSubmarine);
    km * ((1.0 - w) * prices.hvdcOverhead + w * prices.hvdcSubmarine) + prices.hvdcInverterPair
  }

  /** A non-negative length times a convex combination of two prices lies
      between the length times each price. */
  lemma ScaledWeightedBetween(km: real, w: real, a: real, b: real)
    ensures 0.0 <= w <= 1.0 && km >= 0.0 ==>
      var c := (1.0 - w) * a + w * b;
      km * (if a <= b then a else b) <= km * c <= km * (if a <= b then b else a)
  {
    if 0.0 <= w <= 1.0 && km >= 0.0 {
      var c := (1.0 - w) * a + w * b;
      WeightedBetween(w, a, b);
      MulMonotone(km, if a <= b then a else b, c);
      MulMonotone(km, c, if a <= b then b else a);
    }
  }

  /** A convex combination of two prices lies between them. */
  lemma WeightedBetween(w: real, a: real, b: real)
    requires 0.0 <= w <= 1.0
    ensures var c := (1.0 - w) * a + w * b;
      (if a <= b then a else b) <= c <= (if a <= b then b else a)
  {
    var c := (1.0 - w) * a + w * b;
    if a <= b {
      assert c - a == w * (b - a);
      assert b - c == (1.0 - w) * (b - a);
      MulNonNegative(w, b - a);
      MulNonNegative(1.0 - w, b - a);
    } else {
      assert c - b == (1.0 - w) * (a - b);
      assert a - c == w * (a - b);
      MulNonNegative(w, a - b);
      MulNonNegative(1.0 - w, a - b);
    }
  }

  lemma MulNonNegative(x: real, y: real)
    requires x >= 0.0 && y >= 0.0
    ensures x * y >= 0.0
  {
  }

  /** The link half of `update_transmission_costs`: only DC links are
      re-priced; with no links, or no DC link, nothing changes. */
  function UpdateLinkCosts(links: seq<Link>, lengthFactor: real, prices: TransmissionPrices): (r: seq<Link>)
    ensures |r| == |links|
    ensures forall i :: 0 <= i < |links| && links[i].carrier != "DC" ==> r[i] == links[i]
    ensures forall i :: 0 <= i < |links| && links[i].carrier == "DC" ==>
      r[i] == links[i].(capitalCost := DcLinkCost(links[i], lengthFactor, prices))
  {
    if |links| == 0 then links
    else if forall i :: 0 <= i < |links| ==> links[i].carrier != "DC" then links
    else
      seq(|links|, i requires 0 <= i < |links| =>
        if links[i].carrier == "DC" then links[i].(capitalCost := DcLinkCost(links[i], lengthFactor, prices))
        else links[i])
  }

  /** Every element multiplied by `c`. */
  function Scale(s: seq<real>, c: real): (r: seq<real>)
    ensures |r| == |s|
    ensures forall i :: 0 <= i < |s| ==> r[i] == s[i] * c
  {
    if |s| == 0 then [] else [s[0] * c] + Scale(s[1..], c)
  }

  lemma {:induction false} SumScale(s: seq<real>, c: real)
    ensures Sum(Scale(s, c)) == c * Sum(s)
  {
    if |s| > 0 {
      SumScale(s[1..], c);
      assert Scale(s, c)[1..] == Scale(s[1..], c);
    }
  }

  /** `normed(s) = s / s.sum()`: a non-empty Series with a zero total gives
      inf/NaN, an empty one stays empty. */
  function Normed(s: seq<real>): (r: Option<seq<real>>)
    ensures r.Some? <==> |s| == 0 || Sum(s) != 0.0
    ensures r.Some? ==> |r.value| == |s|
    ensures r.Some? && |s| > 0 ==> Sum(r.value) == 1.0
    ensures r.Some? ==> forall i :: 0 <= i < |s| ==> r.value[i] * Sum(s) == s[i]
  {
    var total := Sum(s);
    if |s| == 0 then Some([])
    else if total == 0.0 then None
    else
      SumScale(s, 1.0 / total);
      Some(Scale(s, 1.0 / total))
  }

  /** The attributes of a carrier row; new rows get pypsa's defaults. */
  datatype Carrier = Carrier(nickname: string, color: string, co2Emissions: real)

  const DefaultCarrier: Carrier := Carrier("", "", 0.0)

  /** `add_missing_carriers`: adds exactly the carriers not yet present. */
  function AddMissingCarriers(existing: map<string, Carrier>, carriers: seq<string>): (r: map<string, Carrier>)
    ensures r.Keys == existing.Keys + set c | c in carriers
    ensures forall c :: c in existing ==> r[c] == existing[c]
    ensures forall c :: c in r && c !in existing ==> r[c] == DefaultCarrier
  {
    var wanted := set c | c in carriers;
    // `len(missing_carriers) > 0` fails exactly when every wanted carrier exists
    if wanted <= existing.Keys then existing
    else map c | c in existing.Keys + wanted :: if c in existing then existing[c] else DefaultCarrier
  }

  /** Adding carriers that are all present already is a no-op. */
  lemma AddMissingCarriersNoOp(existing: map<string, Carrier>, carriers: seq<string>)
    requires forall i :: 0 <= i < |carriers| ==> carriers[i] in existing
    ensures AddMissingCarriers(existing, carriers) == existing
  {
  }

  /** MMBtu per MWh: the thermal content of one MWh of electricity. */
  const MmbtuPerMwh: real := 3.412

  /** `add_missing_heat_rates`: a reported heat rate (MMBtu/MWh) is kept;
      a missing one takes the fuel's default, converted from Btu/kWh. */
  function HeatRate(reported: Option<real>, fuelDefaultBtuPerKwh: Option<real>): (h: Option<real>)
    ensures reported.Some? ==> h == reported
    ensures reported.None? ==> (h.Some? <==> fuelDefaultBtuPerKwh.Some?)
    ensures reported.None? && h.Some? ==> h.value * 1000.0 == fuelDefaultBtuPerKwh.value
  {
    if reported.Some? then reported
    else if fuelDefaultBtuPerKwh.Some? then Some(fuelDefaultBtuPerKwh.value / 1000.0)
    else None
  }

  datatype EiaPlant = EiaPlant(
    capacityMw: real, heatRate: real, fuelCost: real,
    rampUpMwPerMin: real, rampDownMwPerMin: real)

  datatype PlantOperation = PlantOperation(
    pNom: real, marginalCost: real, efficiency: Option<real>,
    rampLimitUp: Option<real>, rampLimitDown: Option<real>)

  /** The unit conversions of `load_powerplants_eia`: heat rate times fuel
      price, electric efficiency from heat rate, and ramp rates from MW/min
      to per-unit per hour. */
  function ConvertEiaPlant(p: EiaPlant): (o: PlantOperation)
    ensures o.pNom == p.capacityMw
    ensures o.efficiency.Some? <==> p.heatRate != 0.0
    ensures o.efficiency.Some? ==> o.efficiency.value * p.heatRate == MmbtuPerMwh
    ensures p.heatRate != 0.0 ==> o.marginalCost * o.efficiency.value == p.fuelCost * MmbtuPerMwh
    ensures o.marginalCost == p.heatRate * p.fuelCost
    ensures o.rampLimitUp.Some? <==> p.capacityMw != 0.0
    ensures o.rampLimitDown.Some? <==> p.capacityMw != 0.0
    ensures o.rampLimitUp.Some? ==> o.rampLimitUp.value * p.capacityMw == 60.0 * p.rampUpMwPerMin
    ensures o.rampLimitDown.Some? ==> o.rampLimitDown.value * p.capacityMw == 60.0 * p.rampDownMwPerMin
  {
    var efficiency := if p.heatRate == 0.0 then None else Some(1.0 / (p.heatRate / MmbtuPerMwh));
    var perHour := (rate: real) => if p.capacityMw == 0.0 then None else Some(rate / p.capacityMw * 60.0);
    PlantOperation(p.capacityMw, p.heatRate * p.fuelCost, efficiency,
      perHour(p.rampUpMwPerMin), perHour(p.rampDownMwPerMin))
  }
}
