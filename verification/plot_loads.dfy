/** The pure helpers of the load dashboard: carrier names built from sectors
    and fuels, the day-of-year slider date, and per-bus load totals. */
module PlotLoads {
  import opened Outcomes
  import opened Strings
  import opened Seqs
  import Calendar

  /** A load carrier is named `{sector}-{fuel}`. */
  const CarrierSep: char := '-'

  function CarrierName(sector: string, fuel: string): string
  {
    sector + [CarrierSep] + fuel
  }

  /** The carriers of one sector, one per fuel, in fuel order. */
  function SectorRow(sector: string, fuels: seq<string>): (r: seq<string>)
    ensures |r| == |fuels|
    ensures forall j :: 0 <= j < |fuels| ==> r[j] == CarrierName(sector, fuels[j])
  {
    if |fuels| == 0 then []
    else SectorRow(sector, fuels[..|fuels| - 1]) + [CarrierName(sector, fuels[|fuels| - 1])]
  }

  /** Reference definition of the carrier list: the rows of all sectors,
      sector after sector. */
  function CarrierProduct(sectors: seq<string>, fuels: seq<string>): seq<string>
  {
    if |sectors| == 0 then []
    else CarrierProduct(sectors[..|sectors| - 1], fuels) + SectorRow(sectors[|sectors| - 1], fuels)
  }

  lemma MulStep(a: int, b: int)
    ensures (a + 1) * b == a * b + b
  {
  }

  lemma MulLessRow(i: int, n: int, b: int, j: int)
    requires 0 <= i < n && 0 <= j < b
    ensures i * b + j < n * b
  {
    assert n * b - i * b == (n - i) * b;
    assert (n - i) * b >= b by {
      assert (n - i) * b == (n - i - 1) * b + b;
      assert (n - i - 1) * b >= 0;
    }
  }

  lemma {:induction false} CarrierProductLength(sectors: seq<string>, fuels: seq<string>)
    ensures |CarrierProduct(sectors, fuels)| == |sectors| * |fuels|
  {
    if |sectors| > 0 {
      CarrierProductLength(sectors[..|sectors| - 1], fuels);
      MulStep(|sectors| - 1, |fuels|);
    }
  }

  /** The product has one carrier per (sector, fuel) pair, sector-major:
      item `i * |fuels| + j` is sector `i` with fuel `j`. */
  lemma {:induction false} CarrierProductItem(sectors: seq<string>, fuels: seq<string>, i: int, j: int)
    requires 0 <= i < |sectors| && 0 <= j < |fuels|
    ensures i * |fuels| + j < |CarrierProduct(sectors, fuels)|
    ensures CarrierProduct(sectors, fuels)[i * |fuels| + j] == CarrierName(sectors[i], fuels[j])
  {
    var n := |sectors| - 1;
    var init := sectors[..n];
    var k := i * |fuels| + j;
    CarrierProductLength(sectors, fuels);
    CarrierProductLength(init, fuels);
    MulLessRow(i, |sectors|, |fuels|, j);
    if i < n {
      MulLessRow(i, n, |fuels|, j);
      CarrierProductItem(init, fuels, i, j);
      assert init[i] == sectors[i];
    } else {
      assert k - n * |fuels| == j;
    }
  }

  /** `get_load_carriers`: the outer loop runs over sectors, the inner one
      over fuels. */
  method LoadCarriers(sectors: seq<string>, fuels: seq<string>) returns (carriers: seq<string>)
    ensures carriers == CarrierProduct(sectors, fuels)
    ensures |carriers| == |sectors| * |fuels|
    ensures |carriers| == 0 <==> |sectors| == 0 || |fuels| == 0
  {
    carriers := [];
    for i := 0 to |sectors|
      invariant carriers == CarrierProduct(sectors[..i], fuels)
    {
      var row := [];
      for j := 0 to |fuels|
        invariant row == SectorRow(sectors[i], fuels[..j])
      {
        assert fuels[..j + 1][..j] == fuels[..j];
        row := row + [CarrierName(sectors[i], fuels[j])];
      }
      assert fuels[..|fuels|] == fuels;
      assert sectors[..i + 1][..i] == sectors[..i];
      carriers := carriers + row;
    }
    assert sectors[..|sectors|] == sectors;
    CarrierProductLength(sectors, fuels);
    if |sectors| > 0 && |fuels| > 0 {
      CarrierProductItem(sectors, fuels, 0, 0);
    }
  }

  datatype PlotError = MissingField(carrier: string)

  predicate HasTwoFields(carrier: string)
  {
    CountChar(carrier, CarrierSep) >= 1
  }

  /** SECTORS and FUELS: the sets of first and second `-`-fields of the
      carrier names; a carrier without `-` makes the second lookup raise. */
  function SectorsAndFuels(carriers: seq<string>): (r: Result<(set<string>, set<string>), PlotError>)
    ensures r.Success? <==> forall i :: 0 <= i < |carriers| ==> HasTwoFields(carriers[i])
    ensures r.Failure? ==> r.error.carrier in carriers && !HasTwoFields(r.error.carrier)
    ensures r.Success? ==>
      r.value.0 == (set c | c in carriers :: Split(c, CarrierSep)[0]) &&
      r.value.1 == (set c | c in carriers :: Split(c, CarrierSep)[1])
  {
    if |carriers| == 0 then Success(({}, {}))
    else
      var last := carriers[|carriers| - 1];
      var init := carriers[..|carriers| - 1];
      var (sectors, fuels) :- SectorsAndFuels(init);
      if !HasTwoFields(last) then Failure(MissingField(last))
      else
        var fields := Split(last, CarrierSep);
        assert carriers == init + [last];
        assert forall c :: c in carriers <==> c in init || c == last;
        assert (set c | c in carriers :: Split(c, CarrierSep)[0]) == sectors + {fields[0]};
        assert (set c | c in carriers :: Split(c, CarrierSep)[1]) == fuels + {fields[1]};
        Success((sectors + {fields[0]}, fuels + {fields[1]}))
  }

  /** The fields of `sector-fuel` when neither part contains `-`. */
  lemma CarrierNameFields(sector: string, fuel: string)
    requires CarrierSep !in sector && CarrierSep !in fuel
    ensures Split(CarrierName(sector, fuel), CarrierSep) == [sector, fuel]
  {
    SplitAfterField(sector, fuel, CarrierSep);
    SplitNoSep(fuel, CarrierSep);
  }

  /** Every item of the product is some sector joined to some fuel. */
  lemma {:induction false} ProductItemFields(sectors: seq<string>, fuels: seq<string>, k: int)
    returns (i: nat, j: nat)
    requires forall i :: 0 <= i < |sectors| ==> CarrierSep !in sectors[i]
    requires forall j :: 0 <= j < |fuels| ==> CarrierSep !in fuels[j]
    requires 0 <= k < |CarrierProduct(sectors, fuels)|
    ensures i < |sectors| && j < |fuels|
    ensures Split(CarrierProduct(sectors, fuels)[k], CarrierSep) == [sectors[i], fuels[j]]
  {
    var n := |sectors| - 1;
    var init := sectors[..n];
    var head := CarrierProduct(init, fuels);
    if k < |head| {
      i, j := ProductItemFields(init, fuels, k);
      assert init[i] == sectors[i];
    } else {
      i, j := n, k - |head|;
    }
    CarrierNameFields(sectors[i], fuels[j]);
  }

  /** Every (sector, fuel) pair occurs in the product. */
  lemma ProductHasPair(sectors: seq<string>, fuels: seq<string>, i: int, j: int) returns (k: nat)
    requires forall i :: 0 <= i < |sectors| ==> CarrierSep !in sectors[i]
    requires forall j :: 0 <= j < |fuels| ==> CarrierSep !in fuels[j]
    requires 0 <= i < |sectors| && 0 <= j < |fuels|
    ensures k < |CarrierProduct(sectors, fuels)|
    ensures Split(CarrierProduct(sectors, fuels)[k], CarrierSep) == [sectors[i], fuels[j]]
  {
    CarrierProductItem(sectors, fuels, i, j);
    k := i * |fuels| + j;
    CarrierNameFields(sectors[i], fuels[j]);
  }

  lemma ProductHasTwoFields(sectors: seq<string>, fuels: seq<string>)
    requires forall i :: 0 <= i < |sectors| ==> CarrierSep !in sectors[i]
    requires forall j :: 0 <= j < |fuels| ==> CarrierSep !in fuels[j]
    ensures SectorsAndFuels(CarrierProduct(sectors, fuels)).Success?
  {
    var p := CarrierProduct(sectors, fuels);
    forall k | 0 <= k < |p|
      ensures HasTwoFields(p[k])
    {
      var i, j := ProductItemFields(sectors, fuels, k);
    }
  }

  lemma ProductSectors(sectors: seq<string>, fuels: seq<string>)
    requires |fuels| > 0
    requires forall i :: 0 <= i < |sectors| ==> CarrierSep !in sectors[i]
    requires forall j :: 0 <= j < |fuels| ==> CarrierSep !in fuels[j]
    requires SectorsAndFuels(CarrierProduct(sectors, fuels)).Success?
    ensures SectorsAndFuels(CarrierProduct(sectors, fuels)).value.0 == set i | 0 <= i < |sectors| :: sectors[i]
  {
    var p := CarrierProduct(sectors, fuels);
    var r := SectorsAndFuels(p);
    forall x | x in r.value.0 ensures x in set i | 0 <= i < |sectors| :: sectors[i] {
      var c :| c in p && Split(c, CarrierSep)[0] == x;
      var k :| 0 <= k < |p| && p[k] == c;
      var i, j := ProductItemFields(sectors, fuels, k);
    }
    forall i | 0 <= i < |sectors| ensures sectors[i] in r.value.0 {
      var k := ProductHasPair(sectors, fuels, i, 0);
    }
  }

  lemma ProductFuels(sectors: seq<string>, fuels: seq<string>)
    requires |sectors| > 0
    requires forall i :: 0 <= i < |sectors| ==> CarrierSep !in sectors[i]
    requires forall j :: 0 <= j < |fuels| ==> CarrierSep !in fuels[j]
    requires SectorsAndFuels(CarrierProduct(sectors, fuels)).Success?
    ensures SectorsAndFuels(CarrierProduct(sectors, fuels)).value.1 == set j | 0 <= j < |fuels| :: fuels[j]
  {
    var p := CarrierProduct(sectors, fuels);
    var r := SectorsAndFuels(p);
    forall x | x in r.value.1 ensures x in set j | 0 <= j < |fuels| :: fuels[j] {
      var c :| c in p && Split(c, CarrierSep)[1] == x;
      var k :| 0 <= k < |p| && p[k] == c;
      var i, j := ProductItemFields(sectors, fuels, k);
    }
    forall j | 0 <= j < |fuels| ensures fuels[j] in r.value.1 {
      var k := ProductHasPair(sectors, fuels, 0, j);
    }
  }

  /** Building carriers from dash-free sectors and fuels and splitting them
      again recovers both sets, provided neither list is empty. */
  lemma SectorsAndFuelsOfProduct(sectors: seq<string>, fuels: seq<string>)
    requires |sectors| > 0 && |fuels| > 0
    requires forall i :: 0 <= i < |sectors| ==> CarrierSep !in sectors[i]
    requires forall j :: 0 <= j < |fuels| ==> CarrierSep !in fuels[j]
    ensures SectorsAndFuels(CarrierProduct(sectors, fuels)) ==
      Success((set i | 0 <= i < |sectors| :: sectors[i], set j | 0 <= j < |fuels| :: fuels[j]))
  {
    ProductHasTwoFields(sectors, fuels);
    ProductSectors(sectors, fuels);
    ProductFuels(sectors, fuels);
  }

  /** The slider's day of year `doy` as a date: 2019-01-01 plus `doy - 1`
      days; outside the years `datetime` supports this raises. */
  function DateOfDay(doy: int): (r: Result<Calendar.Date, Calendar.DateError>)
    ensures r.Success? ==> Calendar.ValidDate(r.value)
    ensures r.Success? ==>
      Calendar.DayNumber(r.value) == Calendar.DayNumber(Calendar.Date(2019, 1, 1)) + doy - 1
  {
    Calendar.AddDays(2019, doy - 1)
  }

  /** Any valid date whose day number is `doy - 1` days after 2019-01-01
      is the slider's date. */
  lemma DateOfDayIs(doy: int, d: Calendar.Date)
    requires Calendar.ValidDate(d) && Calendar.MinYear <= d.year <= Calendar.MaxYear
    requires Calendar.DayNumber(d) == Calendar.YearStart(2019) + doy - 1
    ensures DateOfDay(doy) == Success(d)
  {
    Calendar.YearStartMonotone(Calendar.MinYear, d.year);
    Calendar.YearStartStep(d.year);
    Calendar.YearStartMonotone(d.year + 1, Calendar.MaxYear + 1);
    var r := DateOfDay(doy);
    Calendar.DayNumberInjective(r.value, d);
  }

  lemma DateOfFirstDay()
    ensures DateOfDay(1) == Success(Calendar.Date(2019, 1, 1))
  {
    DateOfDayIs(1, Calendar.Date(2019, 1, 1));
  }

  lemma DateOfLastDay()
    ensures DateOfDay(365) == Success(Calendar.Date(2019, 12, 31))
  {
    DateOfDayIs(365, Calendar.Date(2019, 12, 31));
  }

  /** 2019 is not a leap year, so day 366 is already in 2020. */
  lemma DateAfterLastDay()
    ensures DateOfDay(366) == Success(Calendar.Date(2020, 1, 1))
  {
    Calendar.YearStartStep(2019);
    DateOfDayIs(366, Calendar.Date(2020, 1, 1));
  }

  /** `df.loc[date]` on the daily table: a date missing from the table
      raises KeyError, as does a day out of the calendar's range. */
  datatype LookupError = DateOutOfRange | MissingDate(date: Calendar.Date)

  function FilterOnTime<T>(daily: map<Calendar.Date, T>, doy: int): (r: Result<T, LookupError>)
    ensures r.Success? <==> DateOfDay(doy).Success? && DateOfDay(doy).value in daily
    ensures r.Success? ==> r.value == daily[DateOfDay(doy).value]
  {
    match DateOfDay(doy)
    case Failure(_) => Failure(DateOutOfRange)
    case Success(d) => if d in daily then Success(daily[d]) else Failure(MissingDate(d))
  }

  /** One entry of the day's load series: load name and value. */
  datatype LoadValue = LoadValue(load: string, value: real)

  predicate OnBus(l: LoadValue, loadBus: map<string, string>, bus: string)
  {
    l.load in loadBus && loadBus[l.load] == bus
  }

  /** Reference: the total of the loads attached to `bus`. */
  function BusTotal(loads: seq<LoadValue>, loadBus: map<string, string>, bus: string): real
  {
    if |loads| == 0 then 0.0
    else (if OnBus(loads[0], loadBus, bus) then loads[0].value else 0.0) + BusTotal(loads[1..], loadBus, bus)
  }

  lemma {:induction false} BusTotalSnoc(loads: seq<LoadValue>, l: LoadValue, loadBus: map<string, string>, bus: string)
    ensures BusTotal(loads + [l], loadBus, bus) ==
      BusTotal(loads, loadBus, bus) + (if OnBus(l, loadBus, bus) then l.value else 0.0)
  {
    if |loads| > 0 {
      assert (loads + [l])[1..] == loads[1..] + [l];
      BusTotalSnoc(loads[1..], l, loadBus, bus);
    }
  }

  /** `group_by_carrier`: each load's value is attributed to its bus
      (`n.loads.bus`); loads without a bus map to NaN and are dropped by
      the groupby; values of the same bus are summed. */
  function GroupByBus(loads: seq<LoadValue>, loadBus: map<string, string>): (r: map<string, real>)
    ensures r.Keys == set i | 0 <= i < |loads| && loads[i].load in loadBus :: loadBus[loads[i].load]
    ensures forall bus :: bus in r ==> r[bus] == BusTotal(loads, loadBus, bus)
  {
    if |loads| == 0 then map[]
    else
      var init := loads[..|loads| - 1];
      var l := loads[|loads| - 1];
      var r0 := GroupByBus(init, loadBus);
      assert loads == init + [l];
      forall bus ensures BusTotal(loads, loadBus, bus) ==
        BusTotal(init, loadBus, bus) + (if OnBus(l, loadBus, bus) then l.value else 0.0)
      {
        BusTotalSnoc(init, l, loadBus, bus);
      }
      assert forall i :: 0 <= i < |init| ==> init[i] == loads[i];
      if l.load !in loadBus then r0
      else
        var bus := loadBus[l.load];
        var before := if bus in r0 then r0[bus] else 0.0;
        assert bus !in r0 ==> BusTotal(init, loadBus, bus) == 0.0 by {
          if bus !in r0 {
            BusTotalNotOnBus(init, loadBus, bus);
          }
        }
        r0[bus := before + l.value]
  }

  lemma {:induction false} BusTotalNotOnBus(loads: seq<LoadValue>, loadBus: map<string, string>, bus: string)
    requires forall i :: 0 <= i < |loads| ==> !OnBus(loads[i], loadBus, bus)
    ensures BusTotal(loads, loadBus, bus) == 0.0
  {
    if |loads| > 0 {
      BusTotalNotOnBus(loads[1..], loadBus, bus);
    }
  }

  /** Total of the loads whose bus lies in `buses`. */
  function TotalOnBuses(loads: seq<LoadValue>, loadBus: map<string, string>, buses: set<string>): real
  {
    if |loads| == 0 then 0.0
    else
      (if loads[0].load in loadBus && loadBus[loads[0].load] in buses then loads[0].value else 0.0)
      + TotalOnBuses(loads[1..], loadBus, buses)
  }

  /** Total of the loads that have a bus at all (the rest become NaN keys). */
  function MappedTotal(loads: seq<LoadValue>, loadBus: map<string, string>): real
  {
    if |loads| == 0 then 0.0
    else (if loads[0].load in loadBus then loads[0].value else 0.0) + MappedTotal(loads[1..], loadBus)
  }

  /** Sum of the grouped values listed in `buses` (absent buses count 0). */
  function GroupedTotal(grouped: map<string, real>, buses: seq<string>): real
  {
    if |buses| == 0 then 0.0
    else (if buses[0] in grouped then grouped[buses[0]] else 0.0) + GroupedTotal(grouped, buses[1..])
  }

  lemma {:induction false} TotalOnAddedBus(loads: seq<LoadValue>, loadBus: map<string, string>, bus: string, buses: set<string>)
    requires bus !in buses
    ensures TotalOnBuses(loads, loadBus, buses + {bus}) ==
      BusTotal(loads, loadBus, bus) + TotalOnBuses(loads, loadBus, buses)
  {
    if |loads| > 0 {
      TotalOnAddedBus(loads[1..], loadBus, bus, buses);
    }
  }

  lemma {:induction false} TotalOnEveryBus(loads: seq<LoadValue>, loadBus: map<string, string>, buses: set<string>)
    requires forall i :: 0 <= i < |loads| && loads[i].load in loadBus ==> loadBus[loads[i].load] in buses
    ensures TotalOnBuses(loads, loadBus, buses) == MappedTotal(loads, loadBus)
  {
    if |loads| > 0 {
      assert forall i :: 0 <= i < |loads| - 1 ==> loads[1..][i] == loads[i + 1];
      TotalOnEveryBus(loads[1..], loadBus, buses);
    }
  }

  lemma {:induction false} GroupedTotalOver(loads: seq<LoadValue>, loadBus: map<string, string>, buses: seq<string>)
    requires forall a, b :: 0 <= a < b < |buses| ==> buses[a] != buses[b]
    ensures GroupedTotal(GroupByBus(loads, loadBus), buses) ==
      TotalOnBuses(loads, loadBus, set x | x in buses)
  {
    var grouped := GroupByBus(loads, loadBus);
    if |buses| == 0 {
      assert (set x | x in buses) == {};
      TotalOnEveryNone(loads, loadBus);
    } else {
      var rest := buses[1..];
      GroupedTotalOver(loads, loadBus, rest);
      var restSet := set x | x in rest;
      assert (set x | x in buses) == restSet + {buses[0]} by {
        assert buses == [buses[0]] + rest;
      }
      assert buses[0] !in restSet;
      TotalOnAddedBus(loads, loadBus, buses[0], restSet);
      if buses[0] !in grouped {
        BusTotalNotOnBus(loads, loadBus, buses[0]);
      }
    }
  }

  lemma {:induction false} TotalOnEveryNone(loads: seq<LoadValue>, loadBus: map<string, string>)
    ensures TotalOnBuses(loads, loadBus, {}) == 0.0
  {
    if |loads| > 0 {
      TotalOnEveryNone(loads[1..], loadBus);
    }
  }

  /** Grouping preserves the grand total: summing the grouped values over
      an enumeration of the buses gives the total of all loads that have a
      bus. */
  lemma GroupByBusKeepsTotal(loads: seq<LoadValue>, loadBus: map<string, string>, buses: seq<string>)
    requires forall a, b :: 0 <= a < b < |buses| ==> buses[a] != buses[b]
    requires (set x | x in buses) == GroupByBus(loads, loadBus).Keys
    ensures GroupedTotal(GroupByBus(loads, loadBus), buses) == MappedTotal(loads, loadBus)
  {
    GroupedTotalOver(loads, loadBus, buses);
    var keys := GroupByBus(loads, loadBus).Keys;
    forall i | 0 <= i < |loads| && loads[i].load in loadBus
      ensures loadBus[loads[i].load] in keys
    {
    }
    TotalOnEveryBus(loads, loadBus, keys);
  }
}
