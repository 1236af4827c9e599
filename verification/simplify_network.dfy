/** `simplify_network.py`: mapping every line onto one voltage level,
    contracting transformers into a bus map, composing bus maps, the zone
    bookkeeping of substation aggregation, and line lengths. */
module SimplifyNetwork {
  import opened Outcomes
  import opened Strings
  import Seqs

  /** A table cell: text, a number, or NaN. */
  datatype Cell = Text(text: string) | Number(number: real) | Missing

  /** A row of a component table, by column name. */
  type Row = map<string, Cell>

  datatype Bus = Bus(name: string, vNom: real)
  datatype Line = Line(name: string, bus0: Cell, bus1: Cell, vNom: real, numParallel: real, lineType: string)
  datatype Transformer = Transformer(name: string, bus0: string, bus1: string)

  /** The network as this script sees it: buses, lines, transformers, and
      the tables of every other one-port and branch component (generators,
      loads, links, storage units, ...) as plain rows. */
  datatype Network = Network(buses: seq<Bus>, lines: seq<Line>, transformers: seq<Transformer>, others: seq<seq<Row>>)

  // ----- One voltage level -----

  /** The unpacking `(linetype,) = ...unique()` fails unless the lines at
      the target level use exactly one type. */
  datatype VoltageError = NotOneLineType(types: set<string>)

  function TypesAt(lines: seq<Line>, level: real): set<string>
  {
    set i | 0 <= i < |lines| && lines[i].vNom == level :: lines[i].lineType
  }

  /** The type of the first line at `level`. */
  function FirstTypeAt(lines: seq<Line>, level: real): (t: string)
    requires exists i :: 0 <= i < |lines| && lines[i].vNom == level
    ensures t in TypesAt(lines, level)
  {
    if lines[0].vNom == level then lines[0].lineType
    else
      assert forall i :: 1 <= i < |lines| ==> lines[i] == lines[1..][i - 1];
      FirstTypeAt(lines[1..], level)
  }

  lemma SomeLineAt(lines: seq<Line>, level: real)
    requires |TypesAt(lines, level)| > 0
    ensures exists i :: 0 <= i < |lines| && lines[i].vNom == level
  {
    var t :| t in TypesAt(lines, level);
  }

  /** A line moved to `level`: `num_parallel` scaled by `(v_nom / level)^2`
      so the line keeps its capacity. */
  function Rescaled(l: Line, level: real, lineType: string): (r: Line)
    requires level > 0.0
    ensures r.numParallel * level * level == l.numParallel * l.vNom * l.vNom
    ensures r == l.(numParallel := r.numParallel, vNom := level, lineType := lineType)
  {
    var ratio := l.vNom / level;
    assert ratio * level == l.vNom;
    l.(numParallel := l.numParallel * ratio * ratio, vNom := level, lineType := lineType)
  }

  /** `simplify_network_to_voltage_level`, first half: every bus gets the
      level; every line off the level is rescaled onto it with the one line
      type used at the level; lines already there are untouched. */
  function HarmoniseVoltage(n: Network, level: real): (r: Result<Network, VoltageError>)
    requires level > 0.0
    ensures r.Failure? <==> |TypesAt(n.lines, level)| != 1
    ensures r.Success? ==> r.value.transformers == n.transformers && r.value.others == n.others
    ensures r.Success? ==> |r.value.buses| == |n.buses| && forall i :: 0 <= i < |n.buses| ==>
      r.value.buses[i] == Bus(n.buses[i].name, level)
    ensures r.Success? ==> |r.value.lines| == |n.lines| && forall i :: 0 <= i < |n.lines| ==>
      var l, l' := n.lines[i], r.value.lines[i];
      l'.vNom == level && TypesAt(n.lines, level) == {l'.lineType} &&
      l'.name == l.name && l'.bus0 == l.bus0 && l'.bus1 == l.bus1 &&
      l'.numParallel * level * level == l.numParallel * l.vNom * l.vNom &&
      (l.vNom == level ==> l' == l)
  {
    var types := TypesAt(n.lines, level);
    if |types| != 1 then Failure(NotOneLineType(types))
    else
      SomeLineAt(n.lines, level);
      var t := FirstTypeAt(n.lines, level);
      SingletonMember(types, t);
      assert forall i :: 0 <= i < |n.lines| && n.lines[i].vNom == level ==> n.lines[i].lineType in types;
      Success(n.(
        buses := seq(|n.buses|, i requires 0 <= i < |n.buses| => Bus(n.buses[i].name, level)),
        lines := seq(|n.lines|, i requires 0 <= i < |n.lines| =>
          if n.lines[i].vNom == level then n.lines[i] else Rescaled(n.lines[i], level, t))))
  }

  lemma SingletonMember<T>(s: set<T>, x: T)
    requires |s| == 1 && x in s
    ensures s == {x}
  {
    var rest := s - {x};
    assert |rest| == 0;
  }

  /** Harmonising twice changes nothing more: after one pass every line is
      at the level and of its single type. */
  lemma HarmoniseIdempotent(n: Network, level: real)
    requires level > 0.0
    requires HarmoniseVoltage(n, level).Success?
    ensures HarmoniseVoltage(HarmoniseVoltage(n, level).value, level) == HarmoniseVoltage(n, level)
  {
    var m := HarmoniseVoltage(n, level).value;
    var t :| TypesAt(n.lines, level) == {t};
    var i :| 0 <= i < |n.lines| && n.lines[i].vNom == level && n.lines[i].lineType == t;
    assert TypesAt(m.lines, level) == {t} by {
      assert m.lines[i].lineType in TypesAt(m.lines, level);
    }
    var m2 := HarmoniseVoltage(m, level).value;
    assert m2.buses == m.buses;
    assert m2.lines == m.lines;
  }

  // ----- Transformer contraction -----

  /** Transformers as a map `bus0 -> bus1`; of several transformers with the
      same `bus0` the first one wins. */
  function FirstTargets(ts: seq<Transformer>): (m: map<string, string>)
    ensures m.Keys == set i | 0 <= i < |ts| :: ts[i].bus0
    ensures forall i :: 0 <= i < |ts| && (forall j :: 0 <= j < i ==> ts[j].bus0 != ts[i].bus0) ==>
      m[ts[i].bus0] == ts[i].bus1
  {
    if |ts| == 0 then map[]
    else
      var rest := FirstTargets(ts[1..]);
      assert forall i :: 1 <= i < |ts| ==> ts[i] == ts[1..][i - 1];
      rest[ts[0].bus0 := ts[0].bus1]
  }

  /** Every value of the map is the `bus1` of some transformer. */
  lemma {:induction false} FirstTargetsValues(ts: seq<Transformer>, k: string)
    requires k in FirstTargets(ts)
    ensures exists i :: 0 <= i < |ts| && ts[i].bus1 == FirstTargets(ts)[k]
  {
    if ts[0].bus0 != k {
      FirstTargetsValues(ts[1..], k);
      var i :| 0 <= i < |ts[1..]| && ts[1..][i].bus1 == FirstTargets(ts[1..])[k];
      assert ts[i + 1].bus1 == FirstTargets(ts)[k];
    }
  }

  /** Each target that is itself a source is replaced by that source's
      target, once: the lookup uses the map as it was before the update. */
  function ResolveOneHop(m: map<string, string>): (r: map<string, string>)
    ensures r.Keys == m.Keys
    ensures forall a :: a in m ==> r[a] == (if m[a] in m then m[m[a]] else m[a])
  {
    map a | a in m :: if m[a] in m then m[m[a]] else m[a]
  }

  /** A resolved target is a final bus (not a transformer source) exactly
      when the chain from the source has at most two links. */
  lemma OneHopTerminal(m: map<string, string>, a: string)
    requires a in m
    ensures ResolveOneHop(m)[a] !in m <==> m[a] !in m || m[m[a]] !in m
  {
  }

  /** The chain A -> B -> C -> D becomes A -> C, B -> D, C -> D: A still
      points at a transformer source. */
  lemma OneHopChain(a: string, b: string, c: string, d: string)
    requires a != b && a != c && a != d && b != c && b != d && c != d
    ensures ResolveOneHop(map[a := b, b := c, c := d]) == map[a := c, b := d, c := d]
    ensures c in ResolveOneHop(map[a := b, b := c, c := d]).Keys
  {
    var r := ResolveOneHop(map[a := b, b := c, c := d]);
    assert r.Keys == {a, b, c};
    assert r[a] == c && r[b] == d && r[c] == d;
  }

  function BusNames(buses: seq<Bus>): set<string>
  {
    set i | 0 <= i < |buses| :: buses[i].name
  }

  /** The bus map: transformer sources resolved one hop, every other bus
      mapped to itself. */
  function TrafoMap(n: Network): (m: map<string, string>)
    ensures m.Keys == BusNames(n.buses) + FirstTargets(n.transformers).Keys
    ensures forall b :: b in BusNames(n.buses) && b !in FirstTargets(n.transformers) ==> m[b] == b
    ensures forall a :: a in FirstTargets(n.transformers) ==> m[a] == ResolveOneHop(FirstTargets(n.transformers))[a]
  {
    var resolved := ResolveOneHop(FirstTargets(n.transformers));
    var missing := map b | b in BusNames(n.buses) && b !in resolved :: b;
    resolved + missing
  }

  /** Every bus of the network is a key of the bus map. */
  lemma TrafoMapTotal(n: Network, i: int)
    requires 0 <= i < |n.buses|
    ensures n.buses[i].name in TrafoMap(n)
  {
  }

  /** `Series.map`: a text found in the map becomes its image, anything
      else (an unknown label, a number, NaN) becomes NaN. */
  function MapCell(c: Cell, m: map<string, string>): (r: Cell)
    ensures r != Missing <==> c.Text? && c.text in m
    ensures r != Missing ==> r == Text(m[c.text])
  {
    match c
    case Text(b) => if b in m then Text(m[b]) else Missing
    case _ => Missing
  }

  predicate IsBusColumn(column: string)
  {
    StartsWith(column, "bus")
  }

  /** Every `bus*` column of a row goes through the map; other columns stay. */
  function RemapRow(row: Row, m: map<string, string>): (r: Row)
    ensures r.Keys == row.Keys
    ensures forall col :: col in row && !IsBusColumn(col) ==> r[col] == row[col]
    ensures forall col :: col in row && IsBusColumn(col) ==> r[col] == MapCell(row[col], m)
  {
    map col | col in row :: if IsBusColumn(col) then MapCell(row[col], m) else row[col]
  }

  function RemapLine(l: Line, m: map<string, string>): (r: Line)
    ensures r == l.(bus0 := MapCell(l.bus0, m), bus1 := MapCell(l.bus1, m))
  {
    l.(bus0 := MapCell(l.bus0, m), bus1 := MapCell(l.bus1, m))
  }

  /** Composition of maps as `x.map(y)` computes it: defined where the
      first image is a key of the second map. */
  function Compose(first: map<string, string>, second: map<string, string>): (r: map<string, string>)
    ensures r.Keys == set k | k in first && first[k] in second
    ensures forall k :: k in r ==> r[k] == second[first[k]]
  {
    map k | k in first && first[k] in second :: second[first[k]]
  }

  /** Mapping a cell twice is mapping it once through the composed map. */
  lemma MapCellCompose(c: Cell, first: map<string, string>, second: map<string, string>)
    ensures MapCell(MapCell(c, first), second) == MapCell(c, Compose(first, second))
  {
  }

  /** Remapping a row twice is remapping it through the composed map. */
  lemma RemapRowCompose(row: Row, first: map<string, string>, second: map<string, string>)
    ensures RemapRow(RemapRow(row, first), second) == RemapRow(row, Compose(first, second))
  {
    forall col | col in row && IsBusColumn(col)
      ensures RemapRow(RemapRow(row, first), second)[col] == RemapRow(row, Compose(first, second))[col]
    {
      MapCellCompose(row[col], first, second);
    }
  }

  /** Remapping through the identity on the referenced buses changes nothing. */
  lemma RemapRowIdentity(row: Row, m: map<string, string>)
    requires forall col :: col in row && IsBusColumn(col) ==> row[col].Text? && row[col].text in m && m[row[col].text] == row[col].text
    ensures RemapRow(row, m) == row
  {
  }

  function Values(m: map<string, string>): set<string>
  {
    set k | k in m :: m[k]
  }

  /** `mremove("Bus", ...)` of every bus outside `reached`. */
  function SurvivingBuses(buses: seq<Bus>, reached: set<string>): (r: seq<Bus>)
    ensures forall i :: 0 <= i < |r| ==> r[i] in buses && r[i].name in reached
    ensures forall i :: 0 <= i < |buses| && buses[i].name in reached ==> buses[i] in r
    ensures BusNames(r) == BusNames(buses) * reached
    ensures (forall i :: 0 <= i < |buses| ==> buses[i].name in reached) ==> r == buses
  {
    var r := Seqs.Filter(buses, (b: Bus) => b.name in reached);
    assert (forall i :: 0 <= i < |buses| ==> buses[i].name in reached) ==> r == buses by {
      if forall i :: 0 <= i < |buses| ==> buses[i].name in reached {
        Seqs.FilterAll(buses, (b: Bus) => b.name in reached);
      }
    }
    assert BusNames(r) == BusNames(buses) * reached by {
      forall x | x in BusNames(buses) * reached ensures x in BusNames(r) {
        var j :| 0 <= j < |buses| && buses[j].name == x;
        var k :| 0 <= k < |r| && r[k] == buses[j];
      }
      forall x | x in BusNames(r) ensures x in BusNames(buses) {
        var k :| 0 <= k < |r| && r[k].name == x;
        var j :| 0 <= j < |buses| && buses[j] == r[k];
      }
    }
    r
  }

  /** The surviving buses keep their order: removal works bus by bus, so it
      distributes over concatenation, and one bus survives exactly when its
      name is reached. */
  lemma SurvivingBusesKeepOrder(a: seq<Bus>, b: seq<Bus>, x: Bus, reached: set<string>)
    ensures SurvivingBuses(a + b, reached) == SurvivingBuses(a, reached) + SurvivingBuses(b, reached)
    ensures SurvivingBuses([x], reached) == (if x.name in reached then [x] else [])
  {
    Seqs.FilterConcat(a, b, (y: Bus) => y.name in reached);
    assert [x][1..] == [];
  }

  function RemapLines(lines: seq<Line>, m: map<string, string>): (r: seq<Line>)
    ensures |r| == |lines|
    ensures forall i :: 0 <= i < |lines| ==>
      r[i] == lines[i].(bus0 := MapCell(lines[i].bus0, m), bus1 := MapCell(lines[i].bus1, m))
  {
    seq(|lines|, i requires 0 <= i < |lines| => RemapLine(lines[i], m))
  }

  function RemapTables(tables: seq<seq<Row>>, m: map<string, string>): (r: seq<seq<Row>>)
    ensures |r| == |tables|
    ensures forall t :: 0 <= t < |tables| ==>
      (|r[t]| == |tables[t]| && forall k :: 0 <= k < |tables[t]| ==> r[t][k] == RemapRow(tables[t][k], m))
  {
    seq(|tables|, t requires 0 <= t < |tables| =>
      seq(|tables[t]|, k requires 0 <= k < |tables[t]| => RemapRow(tables[t][k], m)))
  }

  /** `simplify_network_to_voltage_level`, second half: rewrite every bus
      reference, drop the transformers, keep only the buses the map
      reaches (`Index.difference` with a Series compares to its values). */
  function ContractTransformers(n: Network): (r: (Network, map<string, string>))
    ensures r.1 == TrafoMap(n)
    ensures r.0.transformers == []
    ensures r.0.buses == SurvivingBuses(n.buses, Values(r.1))
    ensures |r.0.lines| == |n.lines| && forall i :: 0 <= i < |n.lines| ==>
      r.0.lines[i] == n.lines[i].(bus0 := MapCell(n.lines[i].bus0, r.1), bus1 := MapCell(n.lines[i].bus1, r.1))
    ensures |r.0.others| == |n.others| && forall t :: 0 <= t < |n.others| ==>
      |r.0.others[t]| == |n.others[t]| &&
      forall k :: 0 <= k < |n.others[t]| ==> r.0.others[t][k] == RemapRow(n.others[t][k], r.1)
  {
    var m := TrafoMap(n);
    (Network(SurvivingBuses(n.buses, Values(m)), RemapLines(n.lines, m), [], RemapTables(n.others, m)), m)
  }

  /** When every transformer ends at a bus of the network, the map sends
      every bus to a bus. */
  lemma {:induction false} TrafoMapStaysOnBuses(n: Network, b: string)
    requires forall t :: 0 <= t < |n.transformers| ==> n.transformers[t].bus1 in BusNames(n.buses)
    requires b in BusNames(n.buses)
    ensures TrafoMap(n)[b] in BusNames(n.buses)
  {
    var first := FirstTargets(n.transformers);
    if b in first {
      if first[b] in first {
        FirstTargetsValues(n.transformers, first[b]);
      } else {
        FirstTargetsValues(n.transformers, b);
      }
    }
  }

  /** ... and so a reference to a bus refers afterwards to a bus that
      survives the removal. */
  lemma CellStaysOnSurvivingBus(n: Network, c: Cell)
    requires forall t :: 0 <= t < |n.transformers| ==> n.transformers[t].bus1 in BusNames(n.buses)
    requires c.Text? && c.text in BusNames(n.buses)
    ensures var m := TrafoMap(n);
      MapCell(c, m).Text? && MapCell(c, m).text in BusNames(SurvivingBuses(n.buses, Values(m)))
  {
    var m := TrafoMap(n);
    TrafoMapStaysOnBuses(n, c.text);
    assert m[c.text] in Values(m);
  }

  /** Both ends of every line that referred to a bus refer afterwards to a
      bus that survives the removal. */
  lemma LinesStayOnSurvivingBuses(n: Network, i: int)
    requires forall t :: 0 <= t < |n.transformers| ==> n.transformers[t].bus1 in BusNames(n.buses)
    requires 0 <= i < |n.lines|
    ensures var r := ContractTransformers(n).0;
      (n.lines[i].bus0.Text? && n.lines[i].bus0.text in BusNames(n.buses) ==>
        r.lines[i].bus0.Text? && r.lines[i].bus0.text in BusNames(r.buses)) &&
      (n.lines[i].bus1.Text? && n.lines[i].bus1.text in BusNames(n.buses) ==>
        r.lines[i].bus1.Text? && r.lines[i].bus1.text in BusNames(r.buses))
  {
    var line := n.lines[i];
    if line.bus0.Text? && line.bus0.text in BusNames(n.buses) {
      CellStaysOnSurvivingBus(n, line.bus0);
    }
    if line.bus1.Text? && line.bus1.text in BusNames(n.buses) {
      CellStaysOnSurvivingBus(n, line.bus1);
    }
  }

  /** The whole of `simplify_network_to_voltage_level`. */
  function SimplifyToVoltageLevel(n: Network, level: real): (r: Result<(Network, map<string, string>), VoltageError>)
    requires level > 0.0
    ensures r.Failure? <==> |TypesAt(n.lines, level)| != 1
    ensures r.Success? ==> r.value.0.transformers == [] && r.value.1.Keys >= BusNames(n.buses)
    ensures r.Success? ==> forall i :: 0 <= i < |r.value.0.buses| ==> r.value.0.buses[i].vNom == level
  {
    var h :- HarmoniseVoltage(n, level);
    assert BusNames(h.buses) == BusNames(n.buses) by {
      forall x | x in BusNames(n.buses) ensures x in BusNames(h.buses) {
        var i :| 0 <= i < |n.buses| && n.buses[i].name == x;
        assert h.buses[i].name == x;
      }
    }
    Success(ContractTransformers(h))
  }

  // ----- Bus map composition -----

  /** `reduce(lambda x, y: x.map(y), [trafo_map, sub_id])`: every key of the
      trafo map, sent to the substation of its image, or NaN when the image
      has no substation. */
  function ComposeBusmaps(trafo: map<string, string>, subId: map<string, string>): (r: map<string, Option<string>>)
    ensures r.Keys == trafo.Keys
    ensures forall k :: k in r ==> (r[k].Some? <==> k in Compose(trafo, subId))
    ensures forall k :: k in r && r[k].Some? ==> r[k].value == Compose(trafo, subId)[k]
  {
    map k | k in trafo :: if trafo[k] in subId then Some(subId[trafo[k]]) else None
  }

  /** A bus no transformer starts from keeps its own substation. */
  lemma ComposeOnUntouchedBus(n: Network, subId: map<string, string>, b: string)
    requires b in BusNames(n.buses) && b !in FirstTargets(n.transformers)
    ensures ComposeBusmaps(TrafoMap(n), subId)[b] == (if b in subId then Some(subId[b]) else None)
  {
  }

  // ----- Substation zones -----

  /** A bus row as aggregation reads it: name and current zone. */
  datatype BusZone = BusZone(name: string, country: string)

  /** `dict(zip(sub_index, countries))`: buses in table order, each writing
      its zone under its substation; a bus without a substation has a NaN
      key that no substation looks up. */
  function CountryDict(buses: seq<BusZone>, busmap: map<string, string>): (d: map<string, string>)
    ensures d.Keys == set i | 0 <= i < |buses| && buses[i].name in busmap :: busmap[buses[i].name]
  {
    if |buses| == 0 then map[]
    else
      var init := buses[..|buses| - 1];
      var last := buses[|buses| - 1];
      var d := CountryDict(init, busmap);
      assert forall i :: 0 <= i < |init| ==> init[i] == buses[i];
      if last.name in busmap then d[busmap[last.name] := last.country] else d
  }

  predicate MapsTo(b: BusZone, busmap: map<string, string>, sub: string)
  {
    b.name in busmap && busmap[b.name] == sub
  }

  /** A substation's zone is the zone of the last bus, in table order,
      that maps onto it. */
  lemma {:induction false} CountryDictLastWins(buses: seq<BusZone>, busmap: map<string, string>, sub: string, i: int)
    requires 0 <= i < |buses| && MapsTo(buses[i], busmap, sub)
    requires forall j :: i < j < |buses| ==> !MapsTo(buses[j], busmap, sub)
    ensures sub in CountryDict(buses, busmap) && CountryDict(buses, busmap)[sub] == buses[i].country
  {
    var init := buses[..|buses| - 1];
    if i < |buses| - 1 {
      CountryDictLastWins(init, busmap, sub, i);
    }
  }

  datatype Substation = Substation(interconnect: string, lon: real, lat: real)

  /** A bus of the aggregated network; NaN fields are `None`. */
  datatype AggregatedBus = AggregatedBus(
    name: string, interconnect: Option<string>, x: Option<real>, y: Option<real>,
    substationLv: bool, substationOff: bool, country: Option<string>)

  /** Columns of the aggregated buses, aligned on substation id. With BA
      zones a bus takes its substation's `ba` entry (NaN when no bus maps
      onto it), otherwise every bus is in the single zone "US". */
  function AggregateBuses(ids: seq<string>, substations: map<string, Substation>,
                          countries: map<string, string>, useBaZones: bool): (r: seq<AggregatedBus>)
    ensures |r| == |ids|
    ensures forall i :: 0 <= i < |r| ==> r[i].name == ids[i] && r[i].substationLv && r[i].substationOff
    ensures forall i :: 0 <= i < |r| ==> (r[i].x.Some? <==> ids[i] in substations)
    ensures forall i :: 0 <= i < |r| && ids[i] in substations ==>
      r[i].x == Some(substations[ids[i]].lon) && r[i].y == Some(substations[ids[i]].lat) &&
      r[i].interconnect == Some(substations[ids[i]].interconnect)
    ensures !useBaZones ==> forall i :: 0 <= i < |r| ==> r[i].country == Some("US")
    ensures useBaZones ==> forall i :: 0 <= i < |r| ==>
      r[i].country == (if ids[i] in substations && ids[i] in countries then Some(countries[ids[i]]) else None)
  {
    seq(|ids|, i requires 0 <= i < |ids| =>
      var s := ids[i];
      var known := s in substations;
      AggregatedBus(
        s,
        if known then Some(substations[s].interconnect) else None,
        if known then Some(substations[s].lon) else None,
        if known then Some(substations[s].lat) else None,
        true, true,
        if !useBaZones then Some("US")
        else if known && s in countries then Some(countries[s]) else None))
  }

  // ----- Line lengths -----

  /** The script's length factor for haversine distances. */
  const LineLengthFactor: real := 1.25

  datatype Position = Position(x: real, y: real)

  /** Buses moved to their substation's coordinates; NaN when the bus has no
      substation id or the id is not a known substation. */
  function Relocate(buses: seq<string>, subId: map<string, string>, substations: map<string, Substation>)
    : (r: map<string, Option<Position>>)
    ensures r.Keys == set i | 0 <= i < |buses| :: buses[i]
    ensures forall b :: b in r ==>
      (r[b].Some? <==> b in subId && subId[b] in substations)
    ensures forall b :: b in r && r[b].Some? ==>
      r[b].value == Position(substations[subId[b]].lon, substations[subId[b]].lat)
  {
    map b | b in (set i | 0 <= i < |buses| :: buses[i]) ::
      if b in subId && subId[b] in substations then
        Some(Position(substations[subId[b]].lon, substations[subId[b]].lat))
      else None
  }

  /** `n.buses.loc[...]` with a label that is not a bus raises KeyError. */
  datatype LengthError = UnknownBus(line: string)

  function EndPosition(c: Cell, positions: map<string, Option<Position>>): Option<Option<Position>>
  {
    if c.Text? && c.text in positions then Some(positions[c.text]) else None
  }

  /** `length = factor * haversine(bus0, bus1)` for each branch, NaN when an
      end has no coordinates; `dist` stands for the haversine formula. */
  function AssignLengths(lines: seq<Line>, positions: map<string, Option<Position>>,
                         dist: (Position, Position) -> real, factor: real)
    : (r: Result<seq<Option<real>>, LengthError>)
    ensures r.Failure? <==>
      exists i :: 0 <= i < |lines| && !(EndPosition(lines[i].bus0, positions).Some? && EndPosition(lines[i].bus1, positions).Some?)
    ensures r.Success? ==> |r.value| == |lines|
    ensures r.Success? ==> forall i :: 0 <= i < |lines| ==>
      var p0, p1 := EndPosition(lines[i].bus0, positions).value, EndPosition(lines[i].bus1, positions).value;
      (r.value[i].Some? <==> p0.Some? && p1.Some?) &&
      (r.value[i].Some? ==> r.value[i].value == factor * dist(p0.value, p1.value))
  {
    if |lines| == 0 then Success([])
    else
      var init := lines[..|lines| - 1];
      var l := lines[|lines| - 1];
      assert forall i :: 0 <= i < |init| ==> init[i] == lines[i];
      var lengths :- AssignLengths(init, positions, dist, factor);
      var e0 := EndPosition(l.bus0, positions);
      var e1 := EndPosition(l.bus1, positions);
      if e0.None? || e1.None? then Failure(UnknownBus(l.name))
      else
        var len := if e0.value.Some? && e1.value.Some? then Some(factor * dist(e0.value.value, e1.value.value)) else None;
        Success(lengths + [len])
  }

  /** Two branches between the same buses get the same length, and the
      length of one branch does not depend on any other branch. */
  lemma LengthDependsOnlyOnEnds(lines: seq<Line>, positions: map<string, Option<Position>>,
                                dist: (Position, Position) -> real, factor: real, i: int, j: int)
    requires AssignLengths(lines, positions, dist, factor).Success?
    requires 0 <= i < |lines| && 0 <= j < |lines|
    requires lines[i].bus0 == lines[j].bus0 && lines[i].bus1 == lines[j].bus1
    ensures AssignLengths(lines, positions, dist, factor).value[i] == AssignLengths(lines, positions, dist, factor).value[j]
  {
    var r := AssignLengths(lines, positions, dist, factor).value;
    var p0, p1 := EndPosition(lines[i].bus0, positions).value, EndPosition(lines[i].bus1, positions).value;
    assert r[i].Some? <==> p0.Some? && p1.Some?;
    assert r[j].Some? <==> p0.Some? && p1.Some?;
    if p0.Some? && p1.Some? {
      assert r[i].value == factor * dist(p0.value, p1.value);
      assert r[j].value == factor * dist(p0.value, p1.value);
    }
  }
}
