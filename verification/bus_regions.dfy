/** Region assembly of `build_bus_regions.py`: onshore and offshore regions
    per country or per balancing authority (BA), the zone relabelling of
    buses, and the pruning of buses left in the placeholder zone. */
module BusRegions {
  import opened Outcomes
  import opened Seqs
  import opened Geometry
  import Voronoi

  datatype Bus = Bus(name: string, x: real, y: real, country: string, substationLv: bool, substationOff: bool)
  datatype Line = Line(name: string, bus0: string, bus1: string)
  datatype Load = Load(name: string, bus: string)
  datatype Network = Network(buses: seq<Bus>, lines: seq<Line>, loads: seq<Load>)

  /** One row of a regions table. */
  datatype Region = Region(name: string, x: real, y: real, geometry: Geom, country: string)

  datatype RegionError =
    | MissingCountryShape(country: string)   // KeyError on `country_shapes[country]`
    | EmptyPartition(zone: string)           // partition of no points
    | FlatPartition(zone: string)            // partition of collinear points
    | NoOnshoreRegions                       // `pd.concat` of an empty list

  /** The zone buses carry until a region claims them. */
  const Placeholder: string := "US"

  /** Offshore cells of at most this area are dropped. */
  const MinOffshoreArea: real := 0.01

  /** Buses move into a widened offshore shape before selection. */
  const OffshoreBuffer: real := 0.2

  /** The substation that lies just offshore and is forced into a BA. */
  const HotFixBus: string := "37584"
  const HotFixZone: string := "CISO-SDGE"

  function Location(b: Bus): Point
  {
    Point(b.x, b.y)
  }

  /** A named shape table row. */
  datatype NamedShape = NamedShape(name: string, shape: Geom)

  /** Label lookup on a shape table: the first row with the name. */
  function LookupShape(shapes: seq<NamedShape>, name: string): (r: Option<Geom>)
    ensures r.None? <==> forall i :: 0 <= i < |shapes| ==> shapes[i].name != name
    ensures r.Some? ==> exists i :: 0 <= i < |shapes| && shapes[i] == NamedShape(name, r.value)
  {
    if |shapes| == 0 then None
    else if shapes[0].name == name then Some(shapes[0].shape)
    else
      var r := LookupShape(shapes[1..], name);
      assert forall i :: 1 <= i < |shapes| ==> shapes[i] == shapes[1..][i - 1];
      r
  }

  /** One region per selected bus, in order, with the given cells. */
  function RegionsOf(buses: seq<Bus>, cells: seq<Geom>, zone: string): (r: seq<Region>)
    requires |cells| == |buses|
    ensures |r| == |buses|
    ensures forall i :: 0 <= i < |r| ==>
      r[i] == Region(buses[i].name, buses[i].x, buses[i].y, cells[i], zone)
  {
    seq(|buses|, i requires 0 <= i < |buses| => Region(buses[i].name, buses[i].x, buses[i].y, cells[i], zone))
  }

  function Locations(buses: seq<Bus>): (r: seq<Point>)
    ensures |r| == |buses|
    ensures forall i :: 0 <= i < |buses| ==> r[i] == Location(buses[i])
  {
    seq(|buses|, i requires 0 <= i < |buses| => Location(buses[i]))
  }

  /** Two or more buses that the Voronoi construction cannot separate. */
  predicate Collinear(buses: seq<Bus>)
  {
    |buses| >= 2 && Voronoi.Flat(Locations(buses))
  }

  /** The regions of `buses` within `outline`, labelled `zone`; a selection
      of no buses, or of collinear buses, cannot be partitioned. */
  function Partitioned(buses: seq<Bus>, outline: Geom, zone: string, o: Oracle): (r: Result<seq<Region>, RegionError>)
    ensures r.Failure? <==> |buses| == 0 || Collinear(buses)
    ensures |buses| == 0 ==> r == Failure(EmptyPartition(zone))
    ensures Collinear(buses) ==> r == Failure(FlatPartition(zone))
    ensures r.Success? ==> |r.value| == |buses|
    ensures r.Success? ==> forall i :: 0 <= i < |buses| ==>
      r.value[i].name == buses[i].name && r.value[i].country == zone &&
      r.value[i].x == buses[i].x && r.value[i].y == buses[i].y &&
      (forall p :: Contains(o, r.value[i].geometry, p) ==> Contains(o, outline, p))
  {
    var points := Locations(buses);
    match Voronoi.Partition(points, outline, o.isValid)
    case Failure(e) => Failure(if e.NoPoints? then EmptyPartition(zone) else FlatPartition(zone))
    case Success(cells) =>
      forall i, p | 0 <= i < |buses|
        ensures Contains(o, cells[i], p) ==> Contains(o, outline, p)
      {
        Voronoi.PartitionWithinOutline(points, outline, o, i, p);
      }
      Success(RegionsOf(buses, cells, zone))
  }

  predicate Large(o: Oracle, r: Region)
  {
    o.area(r.geometry) > MinOffshoreArea
  }

  /** `regions.loc[regions.area > 1e-2]`. */
  function DropSmall(regions: seq<Region>, o: Oracle): (r: seq<Region>)
    ensures forall i :: 0 <= i < |r| ==> r[i] in regions && Large(o, r[i])
    ensures forall i :: 0 <= i < |regions| && Large(o, regions[i]) ==> regions[i] in r
  {
    Filter(regions, (g: Region) => Large(o, g))
  }

  /** Dropping small regions keeps the order of the rest: it distributes over
      concatenation, and keeps a table of large regions as it is. */
  lemma DropSmallKeepsOrder(a: seq<Region>, b: seq<Region>, o: Oracle)
    ensures DropSmall(a + b, o) == DropSmall(a, o) + DropSmall(b, o)
    ensures (forall i :: 0 <= i < |a| ==> Large(o, a[i])) ==> DropSmall(a, o) == a
  {
    FilterConcat(a, b, (g: Region) => Large(o, g));
    if forall i :: 0 <= i < |a| ==> Large(o, a[i]) {
      FilterAll(a, (g: Region) => Large(o, g));
    }
  }

  // ----- Country mode -----

  /** `c_b & n.buses.substation_lv`, or `substation_off` offshore. */
  predicate OfCountry(b: Bus, country: string, offshore: bool)
  {
    b.country == country && (if offshore then b.substationOff else b.substationLv)
  }

  /** The buses of a country with the requested substation flag, in order. */
  function CountrySelection(buses: seq<Bus>, country: string, offshore: bool): (r: seq<Bus>)
    ensures forall i :: 0 <= i < |r| ==> r[i] in buses && OfCountry(r[i], country, offshore)
    ensures forall i :: 0 <= i < |buses| && OfCountry(buses[i], country, offshore) ==> buses[i] in r
  {
    Filter(buses, (b: Bus) => OfCountry(b, country, offshore))
  }

  /** Onshore regions of one country: one region per low-voltage substation
      of the country, in table order, within the country's shape. A missing
      shape raises, and so does a selection the partition cannot handle. */
  function CountryOnshore(n: Network, country: string, countryShapes: map<string, Geom>, o: Oracle)
    : (r: Result<seq<Region>, RegionError>)
    ensures var sel := CountrySelection(n.buses, country, false);
      r.Failure? <==> country !in countryShapes || |sel| == 0 || Collinear(sel)
    ensures country !in countryShapes ==> r == Failure(MissingCountryShape(country))
    ensures country in countryShapes ==>
      r == Partitioned(CountrySelection(n.buses, country, false), countryShapes[country], country, o)
    ensures r.Success? ==> var sel := CountrySelection(n.buses, country, false);
      |r.value| == |sel| &&
      forall i :: 0 <= i < |sel| ==> r.value[i].name == sel[i].name && r.value[i].country == country
  {
    if country !in countryShapes then Failure(MissingCountryShape(country))
    else Partitioned(CountrySelection(n.buses, country, false), countryShapes[country], country, o)
  }

  /** Offshore regions of one country: none when it has no offshore shape,
      else one cell per offshore substation of the country within that
      shape, minus the small cells. */
  function CountryOffshore(n: Network, country: string, offshoreShapes: seq<NamedShape>, o: Oracle)
    : (r: Result<Option<seq<Region>>, RegionError>)
    ensures LookupShape(offshoreShapes, country).None? ==> r == Success(None)
    ensures var sel := CountrySelection(n.buses, country, true);
      r.Failure? <==> LookupShape(offshoreShapes, country).Some? && (|sel| == 0 || Collinear(sel))
    ensures LookupShape(offshoreShapes, country).Some? && r.Success? ==>
      var cells := Partitioned(CountrySelection(n.buses, country, true), LookupShape(offshoreShapes, country).value, country, o);
      cells.Success? && r == Success(Some(DropSmall(cells.value, o)))
    ensures r.Success? && r.value.Some? ==> forall i :: 0 <= i < |r.value.value| ==>
      r.value.value[i].country == country && Large(o, r.value.value[i])
  {
    match LookupShape(offshoreShapes, country)
    case None => Success(None)
    case Some(shape) =>
      var regions :- Partitioned(CountrySelection(n.buses, country, true), shape, country, o);
      Success(Some(DropSmall(regions, o)))
  }

  /** A country for which both of its partitions go through. */
  predicate CountryOk(n: Network, country: string, countryShapes: map<string, Geom>,
                      offshoreShapes: seq<NamedShape>, o: Oracle)
  {
    CountryOnshore(n, country, countryShapes, o).Success? &&
    CountryOffshore(n, country, offshoreShapes, o).Success?
  }

  predicate AllCountriesOk(n: Network, countries: seq<string>, countryShapes: map<string, Geom>,
                           offshoreShapes: seq<NamedShape>, o: Oracle)
  {
    forall i :: 0 <= i < |countries| ==> CountryOk(n, countries[i], countryShapes, offshoreShapes, o)
  }

  /** Each country's onshore table, in configuration order. */
  predicate OnshoreTables(n: Network, countries: seq<string>, countryShapes: map<string, Geom>, o: Oracle,
                          onshore: seq<seq<Region>>)
  {
    |onshore| == |countries| &&
    forall i :: 0 <= i < |countries| ==>
      CountryOnshore(n, countries[i], countryShapes, o) == Success(onshore[i])
  }

  /** A country whose offshore partition yields a table. */
  predicate HasOffshoreTable(n: Network, country: string, offshoreShapes: seq<NamedShape>, o: Oracle)
  {
    var off := CountryOffshore(n, country, offshoreShapes, o);
    off.Success? && off.value.Some?
  }

  function OffshoreTableOf(n: Network, country: string, offshoreShapes: seq<NamedShape>, o: Oracle): seq<Region>
  {
    var off := CountryOffshore(n, country, offshoreShapes, o);
    if off.Success? && off.value.Some? then off.value.value else []
  }

  /** Every country with an offshore table contributes it. */
  predicate OffshoreTables(n: Network, countries: seq<string>, offshoreShapes: seq<NamedShape>, o: Oracle,
                           offshore: seq<seq<Region>>)
  {
    forall i :: 0 <= i < |countries| && HasOffshoreTable(n, countries[i], offshoreShapes, o) ==>
      OffshoreTableOf(n, countries[i], offshoreShapes, o) in offshore
  }

  /** What a successful country-mode run returns for `countries`. */
  predicate CountryTables(n: Network, countries: seq<string>, countryShapes: map<string, Geom>,
                          offshoreShapes: seq<NamedShape>, o: Oracle,
                          onshore: seq<seq<Region>>, offshore: seq<seq<Region>>)
  {
    OnshoreTables(n, countries, countryShapes, o, onshore) &&
    |offshore| == |Filter(countries, (c: string) => LookupShape(offshoreShapes, c).Some?)| &&
    OffshoreTables(n, countries, offshoreShapes, o, offshore)
  }

  /** Both region lists of country mode, as lists of per-country tables: the
      run succeeds iff every country's partitions do, and then the onshore
      list holds each country's onshore table in configuration order and the
      offshore list the table of every country with an offshore shape. */
  function CountryMode(n: Network, countries: seq<string>, countryShapes: map<string, Geom>,
                       offshoreShapes: seq<NamedShape>, o: Oracle)
    : (r: Result<(seq<seq<Region>>, seq<seq<Region>>), RegionError>)
    ensures r.Success? <==> AllCountriesOk(n, countries, countryShapes, offshoreShapes, o)
    ensures r.Success? ==> CountryTables(n, countries, countryShapes, offshoreShapes, o, r.value.0, r.value.1)
    ensures (exists i :: 0 <= i < |countries| && countries[i] !in countryShapes) ==> r.Failure?
  {
    if |countries| == 0 then Success(([], []))
    else
      var init := countries[..|countries| - 1];
      var c := countries[|countries| - 1];
      assert (exists i :: 0 <= i < |countries| && countries[i] !in countryShapes) ==>
        !AllCountriesOk(n, countries, countryShapes, offshoreShapes, o)
      by {
        if exists i :: 0 <= i < |countries| && countries[i] !in countryShapes {
          var i :| 0 <= i < |countries| && countries[i] !in countryShapes;
          MissingShapeFailsRun(n, countries, countryShapes, offshoreShapes, o, i);
        }
      }
      CountriesOkStep(n, countries, countryShapes, offshoreShapes, o);
      match CountryMode(n, init, countryShapes, offshoreShapes, o)
      case Failure(e) => Failure(e)
      case Success((onshore, offshore)) =>
        match CountryOnshore(n, c, countryShapes, o)
        case Failure(e) => Failure(e)
        case Success(on) =>
          match CountryOffshore(n, c, offshoreShapes, o)
          case Failure(e) => Failure(e)
          case Success(off) =>
            var offshore' := if off.Some? then offshore + [off.value] else offshore;
            CountryTablesStep(n, countries, countryShapes, offshoreShapes, o, onshore, offshore);
            Success((onshore + [on], offshore'))
  }

  /** A run succeeds iff all but the last country do and the last does. */
  lemma CountriesOkStep(n: Network, countries: seq<string>, countryShapes: map<string, Geom>,
                        offshoreShapes: seq<NamedShape>, o: Oracle)
    requires |countries| > 0
    ensures AllCountriesOk(n, countries, countryShapes, offshoreShapes, o) <==>
      AllCountriesOk(n, countries[..|countries| - 1], countryShapes, offshoreShapes, o) &&
      CountryOk(n, countries[|countries| - 1], countryShapes, offshoreShapes, o)
  {
    var init := countries[..|countries| - 1];
    forall i | 0 <= i < |init|
      ensures init[i] == countries[i]
    {
    }
  }

  /** A country without an onshore shape fails the whole run. */
  lemma MissingShapeFailsRun(n: Network, countries: seq<string>, countryShapes: map<string, Geom>,
                             offshoreShapes: seq<NamedShape>, o: Oracle, i: nat)
    requires i < |countries| && countries[i] !in countryShapes
    ensures !AllCountriesOk(n, countries, countryShapes, offshoreShapes, o)
  {
    assert CountryOnshore(n, countries[i], countryShapes, o).Failure?;
  }

  /** Appending the last country's tables extends the tables of the rest. */
  lemma CountryTablesStep(n: Network, countries: seq<string>, countryShapes: map<string, Geom>,
                          offshoreShapes: seq<NamedShape>, o: Oracle,
                          onshore: seq<seq<Region>>, offshore: seq<seq<Region>>)
    requires |countries| > 0
    requires CountryTables(n, countries[..|countries| - 1], countryShapes, offshoreShapes, o, onshore, offshore)
    requires CountryOk(n, countries[|countries| - 1], countryShapes, offshoreShapes, o)
    ensures var c := countries[|countries| - 1];
      var off := CountryOffshore(n, c, offshoreShapes, o).value;
      CountryTables(n, countries, countryShapes, offshoreShapes, o,
        onshore + [CountryOnshore(n, c, countryShapes, o).value],
        if off.Some? then offshore + [off.value] else offshore)
  {
    var c := countries[|countries| - 1];
    var off := CountryOffshore(n, c, offshoreShapes, o).value;
    OnshoreTablesStep(n, countries, countryShapes, o, onshore);
    OffshoreTablesStep(n, countries, offshoreShapes, o, offshore);
    CountriesWithOffshoreStep(countries, offshoreShapes);
  }

  lemma OnshoreTablesStep(n: Network, countries: seq<string>, countryShapes: map<string, Geom>, o: Oracle,
                          onshore: seq<seq<Region>>)
    requires |countries| > 0
    requires OnshoreTables(n, countries[..|countries| - 1], countryShapes, o, onshore)
    requires CountryOnshore(n, countries[|countries| - 1], countryShapes, o).Success?
    ensures OnshoreTables(n, countries, countryShapes, o,
      onshore + [CountryOnshore(n, countries[|countries| - 1], countryShapes, o).value])
  {
    var init := countries[..|countries| - 1];
    forall i | 0 <= i < |init|
      ensures init[i] == countries[i]
    {
    }
  }

  lemma OffshoreTablesStep(n: Network, countries: seq<string>, offshoreShapes: seq<NamedShape>, o: Oracle,
                           offshore: seq<seq<Region>>)
    requires |countries| > 0
    requires OffshoreTables(n, countries[..|countries| - 1], offshoreShapes, o, offshore)
    requires CountryOffshore(n, countries[|countries| - 1], offshoreShapes, o).Success?
    ensures var off := CountryOffshore(n, countries[|countries| - 1], offshoreShapes, o).value;
      OffshoreTables(n, countries, offshoreShapes, o, if off.Some? then offshore + [off.value] else offshore)
  {
    CollectedSnoc(countries, countries[..|countries| - 1], (c: string) => HasOffshoreTable(n, c, offshoreShapes, o),
      (c: string) => OffshoreTableOf(n, c, offshoreShapes, o), offshore);
  }

  lemma CountriesWithOffshoreStep(countries: seq<string>, offshoreShapes: seq<NamedShape>)
    requires |countries| > 0
    ensures var keep := (c: string) => LookupShape(offshoreShapes, c).Some?;
      Filter(countries, keep) ==
        Filter(countries[..|countries| - 1], keep) + (if keep(countries[|countries| - 1]) then [countries[|countries| - 1]] else [])
  {
    var keep := (c: string) => LookupShape(offshoreShapes, c).Some?;
    var c := countries[|countries| - 1];
    FilterConcat(countries[..|countries| - 1], [c], keep);
    assert countries == countries[..|countries| - 1] + [c];
  }

  /** A country without an offshore shape adds no offshore table. */
  lemma CountryWithoutOffshoreShape(n: Network, country: string, offshoreShapes: seq<NamedShape>, o: Oracle)
    requires forall i :: 0 <= i < |offshoreShapes| ==> offshoreShapes[i].name != country
    ensures CountryOffshore(n, country, offshoreShapes, o) == Success(None)
  {
  }

  // ----- Balancing-authority mode -----

  /** `n.buses.loc[names, 'country'] = zone`. */
  function Relabel(buses: seq<Bus>, names: set<string>, zone: string): (r: seq<Bus>)
    ensures |r| == |buses|
    ensures forall i :: 0 <= i < |r| ==>
      r[i] == (if buses[i].name in names then buses[i].(country := zone) else buses[i])
  {
    seq(|buses|, i requires 0 <= i < |buses| => if buses[i].name in names then buses[i].(country := zone) else buses[i])
  }

  function NamesOf(buses: seq<Bus>): set<string>
  {
    set i | 0 <= i < |buses| :: buses[i].name
  }

  /** The hot fix writes its zone onto the one bus it names, when present. */
  function HotFix(buses: seq<Bus>): (r: seq<Bus>)
    ensures |r| == |buses|
    ensures forall i :: 0 <= i < |r| ==>
      r[i] == (if buses[i].name == HotFixBus then buses[i].(country := HotFixZone) else buses[i])
  {
    Relabel(buses, {HotFixBus}, HotFixZone)
  }

  /** The low-voltage substations inside a BA's shape. */
  function OnshoreSelection(buses: seq<Bus>, shape: Geom, o: Oracle): (r: seq<Bus>)
    ensures forall i :: 0 <= i < |r| ==> r[i] in buses && r[i].substationLv && Contains(o, shape, Location(r[i]))
    ensures forall i :: 0 <= i < |buses| && buses[i].substationLv && Contains(o, shape, Location(buses[i])) ==> buses[i] in r
  {
    Filter(buses, (b: Bus) => b.substationLv && Contains(o, shape, Location(b)))
  }

  /** `b` is `a` with some bus zones changed and nothing else. */
  predicate Relabelled(a: seq<Bus>, b: seq<Bus>)
  {
    |a| == |b| && forall i :: 0 <= i < |a| ==> b[i] == a[i].(country := b[i].country)
  }

  lemma LocationsConcat(a: seq<Bus>, b: seq<Bus>)
    ensures Locations(a + b) == Locations(a) + Locations(b)
  {
  }

  /** Relabelling is inherited by the tails and keeps each bus's site and flags. */
  lemma RelabelledTail(a: seq<Bus>, b: seq<Bus>)
    requires Relabelled(a, b) && |a| > 0
    ensures Relabelled(a[1..], b[1..])
    ensures Location(a[0]) == Location(b[0])
    ensures a[0].substationLv == b[0].substationLv && a[0].substationOff == b[0].substationOff
  {
    forall i | 0 <= i < |a| - 1
      ensures b[1..][i] == a[1..][i].(country := b[1..][i].country)
    {
      assert b[1..][i] == b[i + 1] && a[1..][i] == a[i + 1];
    }
  }

  /** Relabelling twice is relabelling. */
  lemma RelabelledTrans(a: seq<Bus>, b: seq<Bus>, c: seq<Bus>)
    requires Relabelled(a, b) && Relabelled(b, c)
    ensures Relabelled(a, c)
  {
  }

  /** A relabelled table keeps every bus's name, site and flags. */
  lemma RelabelledKeepsSites(a: seq<Bus>, b: seq<Bus>)
    requires Relabelled(a, b)
    ensures forall i :: 0 <= i < |a| ==>
      b[i].name == a[i].name && Location(b[i]) == Location(a[i]) &&
      b[i].substationLv == a[i].substationLv && b[i].substationOff == a[i].substationOff
  {
  }

  /** A BA's shape takes a bus iff it is a low-voltage substation inside. */
  predicate InBaShape(b: Bus, shape: Geom, o: Oracle)
  {
    b.substationLv && Contains(o, shape, Location(b))
  }

  /** One unfolding of the onshore selection. */
  lemma OnshoreSelectionCons(a: seq<Bus>, shape: Geom, o: Oracle)
    requires |a| > 0
    ensures OnshoreSelection(a, shape, o) ==
      (if InBaShape(a[0], shape, o) then [a[0]] else []) + OnshoreSelection(a[1..], shape, o)
  {
  }

  /** One unfolding of the onshore selection, as sites. */
  lemma OnshoreSitesCons(a: seq<Bus>, shape: Geom, o: Oracle)
    requires |a| > 0
    ensures Locations(OnshoreSelection(a, shape, o)) ==
      (if InBaShape(a[0], shape, o) then [Location(a[0])] else []) + Locations(OnshoreSelection(a[1..], shape, o))
  {
    OnshoreSelectionCons(a, shape, o);
    var rest := OnshoreSelection(a[1..], shape, o);
    if InBaShape(a[0], shape, o) {
      LocationsConcat([a[0]], rest);
      assert Locations([a[0]]) == [Location(a[0])];
    } else {
      assert [] + rest == rest;
    }
  }

  /** Zones play no part in choosing a BA's buses: relabelled tables give
      selections at the same sites. */
  lemma {:induction false} OnshoreSitesAgree(a: seq<Bus>, b: seq<Bus>, shape: Geom, o: Oracle)
    requires Relabelled(a, b)
    ensures Locations(OnshoreSelection(a, shape, o)) == Locations(OnshoreSelection(b, shape, o))
  {
    if |a| > 0 {
      RelabelledTail(a, b);
      OnshoreSitesAgree(a[1..], b[1..], shape, o);
      OnshoreSitesCons(a, shape, o);
      OnshoreSitesCons(b, shape, o);
    }
  }


  /** The state carried through the BA loop: current buses and the onshore
      tables built so far. */
  datatype BaState = BaState(buses: seq<Bus>, onshore: seq<seq<Region>>)

  /** One pass of the BA loop: a BA without a shape, or whose shape holds
      no bus, is skipped; collinear buses make the partition raise. */
  function BaPass(s: BaState, ba: string, baShapes: map<string, Geom>, o: Oracle): (r: Result<BaState, RegionError>)
    ensures ba !in baShapes ==> r == Success(s)
    ensures ba in baShapes && |OnshoreSelection(s.buses, baShapes[ba], o)| == 0 ==> r == Success(s)
    ensures r.Failure? <==> ba in baShapes && Collinear(OnshoreSelection(s.buses, baShapes[ba], o))
    ensures r.Success? ==> |r.value.onshore| == |s.onshore| || |r.value.onshore| == |s.onshore| + 1
    ensures r.Success? ==> r.value.onshore[..|s.onshore|] == s.onshore
    ensures r.Success? ==> |r.value.buses| == |s.buses|
    ensures r.Success? ==> forall i :: 0 <= i < |s.buses| ==>
      r.value.buses[i] == s.buses[i].(country := r.value.buses[i].country)
  {
    if ba !in baShapes then Success(s)
    else
      var shape := baShapes[ba];
      var sel := OnshoreSelection(s.buses, shape, o);
      if |sel| == 0 then Success(s)
      else
        var regions :- Partitioned(sel, shape, ba, o);
        Success(BaState(HotFix(Relabel(s.buses, NamesOf(sel), ba)), s.onshore + [regions]))
  }

  /** A pass that does not skip relabels exactly the selected buses with the
      BA's name (the hot-fix bus aside) and appends one table holding one
      region per selected bus, all labelled with the BA. */
  lemma BaPassRelabels(s: BaState, ba: string, baShapes: map<string, Geom>, o: Oracle)
    requires ba in baShapes
    requires |OnshoreSelection(s.buses, baShapes[ba], o)| > 0
    ensures BaPass(s, ba, baShapes, o).Success? ==>
      var r := BaPass(s, ba, baShapes, o).value;
      var sel := OnshoreSelection(s.buses, baShapes[ba], o);
      |r.onshore| == |s.onshore| + 1 && r.onshore[..|s.onshore|] == s.onshore &&
      |r.onshore[|s.onshore|]| == |sel| &&
      (forall k :: 0 <= k < |sel| ==>
        r.onshore[|s.onshore|][k].name == sel[k].name && r.onshore[|s.onshore|][k].country == ba) &&
      forall i :: 0 <= i < |s.buses| && s.buses[i].name != HotFixBus ==>
        r.buses[i].country == (if s.buses[i].name in NamesOf(sel) then ba else s.buses[i].country)
  {
  }

  /** A BA whose shape holds collinear low-voltage substations: its
      partition raises. */
  predicate BaRaises(buses: seq<Bus>, ba: string, baShapes: map<string, Geom>, o: Oracle)
  {
    ba in baShapes && Collinear(OnshoreSelection(buses, baShapes[ba], o))
  }

  /** Whether a BA's partition raises does not depend on the zones. */
  lemma BaRaisesAgree(a: seq<Bus>, b: seq<Bus>, ba: string, baShapes: map<string, Geom>, o: Oracle)
    requires Relabelled(a, b)
    ensures BaRaises(a, ba, baShapes, o) <==> BaRaises(b, ba, baShapes, o)
  {
    if ba in baShapes {
      OnshoreSitesAgree(a, b, baShapes[ba], o);
    }
  }


  /** The loop succeeds past a first pass that does not raise iff the rest
      of the BAs do not raise on the relabelled buses. */
  lemma BaRaisesStep(a: seq<Bus>, b: seq<Bus>, bas: seq<string>, baShapes: map<string, Geom>, o: Oracle)
    requires Relabelled(a, b) && |bas| > 0
    requires !BaRaises(a, bas[0], baShapes, o)
    ensures (forall k :: 0 <= k < |bas[1..]| ==> !BaRaises(b, bas[1..][k], baShapes, o)) <==>
            (forall k :: 0 <= k < |bas| ==> !BaRaises(a, bas[k], baShapes, o))
  {
    if forall k :: 0 <= k < |bas[1..]| ==> !BaRaises(b, bas[1..][k], baShapes, o) {
      forall k | 0 <= k < |bas|
        ensures !BaRaises(a, bas[k], baShapes, o)
      {
        if k > 0 {
          assert bas[k] == bas[1..][k - 1];
          BaRaisesAgree(a, b, bas[k], baShapes, o);
        }
      }
    }
    if forall k :: 0 <= k < |bas| ==> !BaRaises(a, bas[k], baShapes, o) {
      forall k | 0 <= k < |bas[1..]|
        ensures !BaRaises(b, bas[1..][k], baShapes, o)
      {
        assert bas[1..][k] == bas[k + 1];
        BaRaisesAgree(a, b, bas[k + 1], baShapes, o);
      }
    }
  }


  /** The loop over the configured BAs: the passes in order, each on the
      buses the previous one relabelled. It succeeds iff no BA's partition
      raises, and a raising pass ends the run. */
  function BaLoop(s: BaState, bas: seq<string>, baShapes: map<string, Geom>, o: Oracle): (r: Result<BaState, RegionError>)
    ensures r.Success? <==> forall k :: 0 <= k < |bas| ==> !BaRaises(s.buses, bas[k], baShapes, o)
    ensures r.Success? ==> |r.value.buses| == |s.buses|
    ensures r.Success? ==> |s.onshore| <= |r.value.onshore| <= |s.onshore| + |bas|
    ensures r.Success? ==> r.value.onshore[..|s.onshore|] == s.onshore
    ensures r.Success? ==> Relabelled(s.buses, r.value.buses)
    decreases |bas|
  {
    if |bas| == 0 then Success(s)
    else
      match BaPass(s, bas[0], baShapes, o)
      case Failure(e) => Failure(e)
      case Success(s1) =>
        var r := BaLoop(s1, bas[1..], baShapes, o);
        assert r.Success? ==> r.value.onshore[..|s.onshore|] == s.onshore by {
          if r.Success? {
            assert r.value.onshore[..|s.onshore|] == r.value.onshore[..|s1.onshore|][..|s.onshore|];
          }
        }
        BaRaisesStep(s.buses, s1.buses, bas, baShapes, o);
        assert r.Success? ==> Relabelled(s.buses, r.value.buses) by {
          if r.Success? {
            RelabelledTrans(s.buses, s1.buses, r.value.buses);
          }
        }
        r
  }

  /** A BA claims the low-voltage substations its shape contains; a BA
      without a shape claims nothing. */
  predicate ClaimedByBa(b: Bus, ba: string, baShapes: map<string, Geom>, o: Oracle)
  {
    ba in baShapes && b.substationLv && Contains(o, baShapes[ba], Location(b))
  }

  /** Reference for the BA relabelling: the last BA of the list that claims
      the bus. */
  function LastBa(b: Bus, bas: seq<string>, baShapes: map<string, Geom>, o: Oracle): (r: Option<string>)
    ensures r.None? <==> forall k :: 0 <= k < |bas| ==> !ClaimedByBa(b, bas[k], baShapes, o)
    ensures r.Some? ==>
      exists k :: (0 <= k < |bas| && ClaimedByBa(b, bas[k], baShapes, o) && bas[k] == r.value &&
        forall l :: k < l < |bas| ==> !ClaimedByBa(b, bas[l], baShapes, o))
  {
    if |bas| == 0 then None
    else
      var later := LastBa(b, bas[1..], baShapes, o);
      assert forall k :: 1 <= k < |bas| ==> bas[k] == bas[1..][k - 1];
      if later.Some? then later
      else if ClaimedByBa(b, bas[0], baShapes, o) then Some(bas[0])
      else None
  }

  /** Bus `i` is among a BA's selected names exactly when the BA claims it
      (bus names are the index of the table, so unique). */
  lemma SelectedIffClaimed(buses: seq<Bus>, ba: string, baShapes: map<string, Geom>, o: Oracle, i: int)
    requires UniqueNames(buses)
    requires ba in baShapes && 0 <= i < |buses|
    ensures buses[i].name in NamesOf(OnshoreSelection(buses, baShapes[ba], o)) <==> ClaimedByBa(buses[i], ba, baShapes, o)
  {
    var sel := OnshoreSelection(buses, baShapes[ba], o);
    if buses[i].name in NamesOf(sel) {
      var k :| 0 <= k < |sel| && sel[k].name == buses[i].name;
      var j :| 0 <= j < |buses| && buses[j] == sel[k];
    }
    if ClaimedByBa(buses[i], ba, baShapes, o) {
      var k :| 0 <= k < |sel| && sel[k] == buses[i];
    }
  }

  /** One pass gives bus `i` the BA's name exactly when the BA claims it
      (the hot-fix bus aside). */
  lemma BaPassLabel(s: BaState, ba: string, baShapes: map<string, Geom>, o: Oracle, i: int)
    requires UniqueNames(s.buses)
    requires BaPass(s, ba, baShapes, o).Success?
    requires 0 <= i < |s.buses| && s.buses[i].name != HotFixBus
    ensures BaPass(s, ba, baShapes, o).value.buses[i].country ==
      if ClaimedByBa(s.buses[i], ba, baShapes, o) then ba else s.buses[i].country
  {
    if ba in baShapes {
      SelectedIffClaimed(s.buses, ba, baShapes, o, i);
      if |OnshoreSelection(s.buses, baShapes[ba], o)| > 0 {
        BaPassRelabels(s, ba, baShapes, o);
      }
    }
  }

  /** Bus `b1` is `b` relabelled: it is claimed by the same BAs. */
  lemma {:induction false} SameBaClaims(b: Bus, b1: Bus, bas: seq<string>, baShapes: map<string, Geom>, o: Oracle)
    requires b1 == b.(country := b1.country)
    ensures LastBa(b, bas, baShapes, o) == LastBa(b1, bas, baShapes, o)
  {
    if |bas| > 0 {
      SameBaClaims(b, b1, bas[1..], baShapes, o);
    }
  }

  /** After the BA loop every bus other than the hot-fix bus carries the
      name of the last BA that claims it, and buses no BA claims keep their
      zone: later BAs overwrite earlier ones. */
  lemma {:induction false} BaLastShapeWins(s: BaState, bas: seq<string>, baShapes: map<string, Geom>, o: Oracle, i: int)
    requires UniqueNames(s.buses)
    requires BaLoop(s, bas, baShapes, o).Success?
    requires 0 <= i < |s.buses| && s.buses[i].name != HotFixBus
    ensures BaLoop(s, bas, baShapes, o).value.buses[i].country ==
      match LastBa(s.buses[i], bas, baShapes, o)
      case Some(ba) => ba
      case None => s.buses[i].country
    decreases |bas|
  {
    if |bas| > 0 {
      var s1 := BaPass(s, bas[0], baShapes, o).value;
      assert forall k :: 0 <= k < |s.buses| ==> s1.buses[k].name == s.buses[k].name;
      BaPassLabel(s, bas[0], baShapes, o, i);
      BaLastShapeWins(s1, bas[1..], baShapes, o, i);
      SameBaClaims(s.buses[i], s1.buses[i], bas[1..], baShapes, o);
    }
  }

  /** The offshore substations within the widened shape. */
  function OffshoreSelection(buses: seq<Bus>, shape: Geom, o: Oracle): (r: seq<Bus>)
    ensures forall i :: 0 <= i < |r| ==> r[i] in buses && Claims(shape, r[i], o)
    ensures forall i :: 0 <= i < |buses| && Claims(shape, buses[i], o) ==> buses[i] in r
  {
    Filter(buses, (b: Bus) => Claims(shape, b, o))
  }

  /** One pass of the offshore loop: partition the selected buses against
      the unwidened shape, keep the large cells, relabel the buses. */
  function OffshorePass(buses: seq<Bus>, s: NamedShape, o: Oracle): (r: Result<(seq<Bus>, seq<Region>), RegionError>)
    ensures r.Failure? <==> |OffshoreSelection(buses, s.shape, o)| == 0 || Collinear(OffshoreSelection(buses, s.shape, o))
    ensures r.Success? ==> r.value.0 == Relabel(buses, NamesOf(OffshoreSelection(buses, s.shape, o)), s.name)
    ensures r.Success? ==> forall i :: 0 <= i < |r.value.1| ==> r.value.1[i].country == s.name && Large(o, r.value.1[i])
  {
    var sel := OffshoreSelection(buses, s.shape, o);
    var regions :- Partitioned(sel, s.shape, s.name, o);
    Success((Relabel(buses, NamesOf(sel), s.name), DropSmall(regions, o)))
  }

  /** An offshore shape whose selection cannot be partitioned: it holds no
      offshore substation, or only collinear ones. */
  predicate OffshoreRaises(buses: seq<Bus>, s: NamedShape, o: Oracle)
  {
    |OffshoreSelection(buses, s.shape, o)| == 0 || Collinear(OffshoreSelection(buses, s.shape, o))
  }

  /** One unfolding of the offshore selection. */
  lemma OffshoreSelectionCons(a: seq<Bus>, shape: Geom, o: Oracle)
    requires |a| > 0
    ensures OffshoreSelection(a, shape, o) ==
      (if Claims(shape, a[0], o) then [a[0]] else []) + OffshoreSelection(a[1..], shape, o)
  {
  }

  /** One unfolding of the offshore selection, as sites. */
  lemma OffshoreSitesCons(a: seq<Bus>, shape: Geom, o: Oracle)
    requires |a| > 0
    ensures Locations(OffshoreSelection(a, shape, o)) ==
      (if Claims(shape, a[0], o) then [Location(a[0])] else []) + Locations(OffshoreSelection(a[1..], shape, o))
  {
    OffshoreSelectionCons(a, shape, o);
    var rest := OffshoreSelection(a[1..], shape, o);
    if Claims(shape, a[0], o) {
      LocationsConcat([a[0]], rest);
      assert Locations([a[0]]) == [Location(a[0])];
    } else {
      assert [] + rest == rest;
    }
  }

  /** Zones play no part in choosing a shape's offshore buses: relabelled
      tables give selections at the same sites. */
  lemma {:induction false} OffshoreSitesAgree(a: seq<Bus>, b: seq<Bus>, shape: Geom, o: Oracle)
    requires Relabelled(a, b)
    ensures Locations(OffshoreSelection(a, shape, o)) == Locations(OffshoreSelection(b, shape, o))
  {
    if |a| > 0 {
      RelabelledTail(a, b);
      OffshoreSitesAgree(a[1..], b[1..], shape, o);
      OffshoreSitesCons(a, shape, o);
      OffshoreSitesCons(b, shape, o);
    }
  }

  /** Whether an offshore pass raises does not depend on the zones. */
  lemma OffshoreRaisesAgree(a: seq<Bus>, b: seq<Bus>, shape: NamedShape, o: Oracle)
    requires Relabelled(a, b)
    ensures OffshoreRaises(a, shape, o) <==> OffshoreRaises(b, shape, o)
  {
    OffshoreSitesAgree(a, b, shape.shape, o);
  }


  /** The offshore loop succeeds past a first pass that does not raise iff
      the rest of the shapes do not raise on the relabelled buses. */
  lemma OffshoreRaisesStep(a: seq<Bus>, b: seq<Bus>, shapes: seq<NamedShape>, o: Oracle)
    requires Relabelled(a, b) && |shapes| > 0
    requires !OffshoreRaises(a, shapes[0], o)
    ensures (forall k :: 0 <= k < |shapes[1..]| ==> !OffshoreRaises(b, shapes[1..][k], o)) <==>
            (forall k :: 0 <= k < |shapes| ==> !OffshoreRaises(a, shapes[k], o))
  {
    if forall k :: 0 <= k < |shapes[1..]| ==> !OffshoreRaises(b, shapes[1..][k], o) {
      forall k | 0 <= k < |shapes|
        ensures !OffshoreRaises(a, shapes[k], o)
      {
        if k > 0 {
          assert shapes[k] == shapes[1..][k - 1];
          OffshoreRaisesAgree(a, b, shapes[k], o);
        }
      }
    }
    if forall k :: 0 <= k < |shapes| ==> !OffshoreRaises(a, shapes[k], o) {
      forall k | 0 <= k < |shapes[1..]|
        ensures !OffshoreRaises(b, shapes[1..][k], o)
      {
        assert shapes[1..][k] == shapes[k + 1];
        OffshoreRaisesAgree(a, b, shapes[k + 1], o);
      }
    }
  }


  /** The loop over the offshore shape table: the passes in table order,
      each on the buses the previous one relabelled, one table per shape.
      It succeeds iff no shape's partition raises. */
  function OffshoreLoop(buses: seq<Bus>, shapes: seq<NamedShape>, o: Oracle): (r: Result<(seq<Bus>, seq<seq<Region>>), RegionError>)
    ensures r.Success? <==> forall k :: 0 <= k < |shapes| ==> !OffshoreRaises(buses, shapes[k], o)
    ensures r.Success? ==> |r.value.1| == |shapes| && Relabelled(buses, r.value.0)
    ensures r.Success? ==> forall i :: 0 <= i < |buses| ==>
      r.value.0[i].name == buses[i].name && Location(r.value.0[i]) == Location(buses[i]) &&
      r.value.0[i].substationOff == buses[i].substationOff
    decreases |shapes|
  {
    if |shapes| == 0 then Success((buses, []))
    else
      match OffshorePass(buses, shapes[0], o)
      case Failure(e) => Failure(e)
      case Success((b1, regions)) =>
        OffshoreRaisesStep(buses, b1, shapes, o);
        match OffshoreLoop(b1, shapes[1..], o)
        case Failure(e) => Failure(e)
        case Success((b2, rest)) =>
          RelabelledTrans(buses, b1, b2);
          RelabelledKeepsSites(buses, b2);
          Success((b2, [regions] + rest))
  }

  /** An offshore shape claims the offshore substations within its widened outline. */
  predicate Claims(shape: Geom, b: Bus, o: Oracle)
  {
    b.substationOff && Contains(o, Buffered(shape, OffshoreBuffer), Location(b))
  }

  /** Reference for the offshore relabelling: the name of the last shape
      whose widened outline holds the bus, if it is an offshore substation. */
  function LastClaim(b: Bus, shapes: seq<NamedShape>, o: Oracle): (r: Option<string>)
    ensures r.None? <==> forall k :: 0 <= k < |shapes| ==> !Claims(shapes[k].shape, b, o)
    ensures r.Some? ==>
      exists k :: (0 <= k < |shapes| && Claims(shapes[k].shape, b, o) &&
        shapes[k].name == r.value && forall l :: k < l < |shapes| ==> !Claims(shapes[l].shape, b, o))
  {
    if |shapes| == 0 then None
    else
      var later := LastClaim(b, shapes[1..], o);
      assert forall k :: 1 <= k < |shapes| ==> shapes[k] == shapes[1..][k - 1];
      if later.Some? then later
      else if Claims(shapes[0].shape, b, o) then Some(shapes[0].name)
      else None
  }

  predicate UniqueNames(buses: seq<Bus>)
  {
    forall a, b :: 0 <= a < b < |buses| ==> buses[a].name != buses[b].name
  }

  /** After the offshore loop every bus carries the name of the last shape
      that claims it, and buses no shape claims keep their zone: later
      shapes overwrite earlier ones. */
  lemma {:induction false} OffshoreLastShapeWins(buses: seq<Bus>, shapes: seq<NamedShape>, o: Oracle, i: int)
    requires UniqueNames(buses)
    requires OffshoreLoop(buses, shapes, o).Success?
    requires 0 <= i < |buses|
    ensures OffshoreLoop(buses, shapes, o).value.0[i].country ==
      match LastClaim(buses[i], shapes, o)
      case Some(name) => name
      case None => buses[i].country
    decreases |shapes|
  {
    if |shapes| > 0 {
      var b1 := OffshorePass(buses, shapes[0], o).value.0;
      assert forall k :: 0 <= k < |buses| ==> b1[k].name == buses[k].name;
      OffshoreLastShapeWins(b1, shapes[1..], o, i);
      ClaimedIff(buses, shapes[0], o, i);
      assert Location(b1[i]) == Location(buses[i]) && b1[i].substationOff == buses[i].substationOff;
      LastClaimCons(buses[i], b1[i], shapes, o);
    }
  }

  /** Bus `i` is relabelled by a pass exactly when the shape claims it
      (bus names are the index of the table, so unique). */
  lemma ClaimedIff(buses: seq<Bus>, s: NamedShape, o: Oracle, i: int)
    requires 0 <= i < |buses|
    requires UniqueNames(buses)
    ensures buses[i].name in NamesOf(OffshoreSelection(buses, s.shape, o)) <==> Claims(s.shape, buses[i], o)
  {
    var sel := OffshoreSelection(buses, s.shape, o);
    if buses[i].name in NamesOf(sel) {
      var k :| 0 <= k < |sel| && sel[k].name == buses[i].name;
      var j :| 0 <= j < |buses| && buses[j] == sel[k];
    }
  }

  lemma LastClaimCons(b: Bus, b1: Bus, shapes: seq<NamedShape>, o: Oracle)
    requires |shapes| > 0
    requires Location(b1) == Location(b) && b1.substationOff == b.substationOff
    ensures LastClaim(b, shapes, o) ==
      match LastClaim(b1, shapes[1..], o)
      case Some(name) => Some(name)
      case None => if Claims(shapes[0].shape, b, o) then Some(shapes[0].name) else None
  {
    SameClaims(b, b1, shapes[1..], o);
  }

  lemma {:induction false} SameClaims(b: Bus, b1: Bus, shapes: seq<NamedShape>, o: Oracle)
    requires Location(b1) == Location(b) && b1.substationOff == b.substationOff
    ensures LastClaim(b, shapes, o) == LastClaim(b1, shapes, o)
  {
    if |shapes| > 0 {
      SameClaims(b, b1, shapes[1..], o);
    }
  }

  // ----- Pruning -----

  function PlaceholderBuses(buses: seq<Bus>): set<string>
  {
    set i | 0 <= i < |buses| && buses[i].country == Placeholder :: buses[i].name
  }

  /** Remove lines whose `bus1` is a placeholder bus, loads on such buses,
      and the buses themselves. */
  function Prune(n: Network): (r: Network)
    ensures forall i :: 0 <= i < |r.buses| ==> r.buses[i].country != Placeholder && r.buses[i] in n.buses
    ensures forall i :: 0 <= i < |n.buses| && n.buses[i].country != Placeholder ==> n.buses[i] in r.buses
    ensures forall i :: 0 <= i < |r.loads| ==> r.loads[i] in n.loads && r.loads[i].bus !in PlaceholderBuses(n.buses)
    ensures forall i :: 0 <= i < |n.loads| && n.loads[i].bus !in PlaceholderBuses(n.buses) ==> n.loads[i] in r.loads
    ensures forall i :: 0 <= i < |r.lines| ==> r.lines[i] in n.lines && r.lines[i].bus1 !in PlaceholderBuses(n.buses)
    ensures forall i :: 0 <= i < |n.lines| && n.lines[i].bus1 !in PlaceholderBuses(n.buses) ==> n.lines[i] in r.lines
  {
    var us := PlaceholderBuses(n.buses);
    Network(
      Filter(n.buses, (b: Bus) => b.country != Placeholder),
      Filter(n.lines, (l: Line) => l.bus1 !in us),
      Filter(n.loads, (l: Load) => l.bus !in us))
  }

  /** Pruning looks only at `bus1`: a line from a removed bus to a kept bus
      stays in the network, dangling. */
  lemma PruneKeepsLineFromRemovedBus(n: Network, i: int)
    requires 0 <= i < |n.lines|
    requires n.lines[i].bus0 in PlaceholderBuses(n.buses)
    requires n.lines[i].bus1 !in PlaceholderBuses(n.buses)
    ensures n.lines[i] in Prune(n).lines
    ensures forall k :: 0 <= k < |Prune(n).buses| ==>
      (Prune(n).buses[k].name != n.lines[i].bus0 ||
       exists j :: 0 <= j < |n.buses| && n.buses[j].name == n.lines[i].bus0 && n.buses[j].country != Placeholder)
  {
  }

  /** No BA's partition raises and every offshore shape holds offshore
      substations that can be partitioned. */
  predicate BaModeOk(n: Network, bas: seq<string>, baShapes: map<string, Geom>,
                     offshoreShapes: seq<NamedShape>, o: Oracle)
  {
    (forall k :: 0 <= k < |bas| ==> !BaRaises(n.buses, bas[k], baShapes, o)) &&
    (forall k :: 0 <= k < |offshoreShapes| ==> !OffshoreRaises(n.buses, offshoreShapes[k], o))
  }

  /** Whole BA mode: the BA loop, the offshore loop, then pruning. It
      succeeds iff no BA's partition raises and every offshore shape holds
      offshore substations that can be partitioned. */
  function BaMode(n: Network, bas: seq<string>, baShapes: map<string, Geom>,
                  offshoreShapes: seq<NamedShape>, o: Oracle)
    : (r: Result<(Network, seq<seq<Region>>, seq<seq<Region>>), RegionError>)
    ensures r.Success? <==>
      (forall k :: 0 <= k < |bas| ==> !BaRaises(n.buses, bas[k], baShapes, o)) &&
      (forall k :: 0 <= k < |offshoreShapes| ==> !OffshoreRaises(n.buses, offshoreShapes[k], o))
    ensures r.Success? ==> |r.value.1| <= |bas| && |r.value.2| == |offshoreShapes|
    ensures r.Success? ==> forall i :: 0 <= i < |r.value.0.buses| ==> r.value.0.buses[i].country != Placeholder
  {
    match BaLoop(BaState(n.buses, []), bas, baShapes, o)
    case Failure(e) => Failure(e)
    case Success(s) =>
      assert (forall k :: 0 <= k < |offshoreShapes| ==> !OffshoreRaises(s.buses, offshoreShapes[k], o)) <==>
             (forall k :: 0 <= k < |offshoreShapes| ==> !OffshoreRaises(n.buses, offshoreShapes[k], o)) by {
        forall k | 0 <= k < |offshoreShapes| {
          OffshoreRaisesAgree(n.buses, s.buses, offshoreShapes[k], o);
        }
      }
      match OffshoreLoop(s.buses, offshoreShapes, o)
      case Failure(e) => Failure(e)
      case Success((buses, offshore)) => Success((Prune(Network(buses, n.lines, n.loads)), s.onshore, offshore))
  }

  /** Reference for a bus's zone at the end of BA mode: the last offshore
      shape claiming it, else the last BA claiming it, else its own zone. */
  function FinalLabel(b: Bus, bas: seq<string>, baShapes: map<string, Geom>,
                      offshoreShapes: seq<NamedShape>, o: Oracle): string
  {
    match LastClaim(b, offshoreShapes, o)
    case Some(name) => name
    case None =>
      match LastBa(b, bas, baShapes, o)
      case Some(ba) => ba
      case None => b.country
  }

  /** The buses both loops of BA mode leave behind, before pruning. */
  function LoopedBuses(n: Network, bas: seq<string>, baShapes: map<string, Geom>,
                       offshoreShapes: seq<NamedShape>, o: Oracle): seq<Bus>
    requires BaModeOk(n, bas, baShapes, offshoreShapes, o)
  {
    assert BaMode(n, bas, baShapes, offshoreShapes, o).Success?;
    var s := BaLoop(BaState(n.buses, []), bas, baShapes, o).value;
    OffshoreLoop(s.buses, offshoreShapes, o).value.0
  }

  /** After both loops every bus other than the hot-fix bus carries its
      final zone, and bus names are unchanged. */
  lemma LoopedBusZone(n: Network, bas: seq<string>, baShapes: map<string, Geom>,
                      offshoreShapes: seq<NamedShape>, o: Oracle, i: int)
    requires UniqueNames(n.buses)
    requires BaModeOk(n, bas, baShapes, offshoreShapes, o)
    requires 0 <= i < |n.buses| && n.buses[i].name != HotFixBus
    ensures var buses := LoopedBuses(n, bas, baShapes, offshoreShapes, o);
      Relabelled(n.buses, buses) &&
      buses[i].country == FinalLabel(n.buses[i], bas, baShapes, offshoreShapes, o)
  {
    assert BaMode(n, bas, baShapes, offshoreShapes, o).Success?;
    var s := BaLoop(BaState(n.buses, []), bas, baShapes, o).value;
    BaLastShapeWins(BaState(n.buses, []), bas, baShapes, o, i);
    assert UniqueNames(s.buses) by {
      assert forall k :: 0 <= k < |n.buses| ==> s.buses[k].name == n.buses[k].name;
    }
    OffshoreLastShapeWins(s.buses, offshoreShapes, o, i);
    SameClaims(n.buses[i], s.buses[i], offshoreShapes, o);
  }

  /** Pruning keeps a bus iff its zone is not the placeholder, and the bus
      it keeps under that name is that bus (bus names are unique). */
  lemma PruneFate(n: Network, i: int)
    requires UniqueNames(n.buses)
    requires 0 <= i < |n.buses|
    ensures var kept := Prune(n).buses;
      (n.buses[i].name in NamesOf(kept) <==> n.buses[i].country != Placeholder) &&
      forall j :: 0 <= j < |kept| && kept[j].name == n.buses[i].name ==> kept[j] == n.buses[i]
  {
    var kept := Prune(n).buses;
    forall j | 0 <= j < |kept| && kept[j].name == n.buses[i].name
      ensures kept[j] == n.buses[i]
    {
      var m :| 0 <= m < |n.buses| && n.buses[m] == kept[j];
    }
    if n.buses[i].country != Placeholder {
      var j :| 0 <= j < |kept| && kept[j] == n.buses[i];
    }
  }

  /** The fate of one bus in BA mode (the hot-fix bus aside): it survives
      pruning iff its final zone is not the placeholder, and a surviving bus
      carries that zone. */
  lemma BaModeBusFate(n: Network, bas: seq<string>, baShapes: map<string, Geom>,
                      offshoreShapes: seq<NamedShape>, o: Oracle, i: int)
    requires UniqueNames(n.buses)
    requires BaModeOk(n, bas, baShapes, offshoreShapes, o)
    requires 0 <= i < |n.buses| && n.buses[i].name != HotFixBus
    ensures var kept := BaMode(n, bas, baShapes, offshoreShapes, o).value.0.buses;
      var zone := FinalLabel(n.buses[i], bas, baShapes, offshoreShapes, o);
      (n.buses[i].name in NamesOf(kept) <==> zone != Placeholder) &&
      forall j :: 0 <= j < |kept| && kept[j].name == n.buses[i].name ==> kept[j].country == zone
  {
    var buses := LoopedBuses(n, bas, baShapes, offshoreShapes, o);
    LoopedBusZone(n, bas, baShapes, offshoreShapes, o, i);
    assert UniqueNames(buses) by {
      assert forall k :: 0 <= k < |n.buses| ==> buses[k].name == n.buses[k].name;
    }
    PruneFate(Network(buses, n.lines, n.loads), i);
  }

  // ----- Output -----

  function Flatten(tables: seq<seq<Region>>): (r: seq<Region>)
  {
    if |tables| == 0 then [] else tables[0] + Flatten(tables[1..])
  }

  /** The written tables: concatenating no onshore tables raises; with no
      offshore table the raw offshore shapes are written instead. */
  datatype OffshoreOutput = OffshoreRegions(regions: seq<Region>) | RawShapes(shapes: seq<NamedShape>)

  function Outputs(onshore: seq<seq<Region>>, offshore: seq<seq<Region>>, offshoreShapes: seq<NamedShape>)
    : (r: Result<(seq<Region>, OffshoreOutput), RegionError>)
    ensures r.Failure? <==> |onshore| == 0
    ensures r.Success? ==> r.value.0 == Flatten(onshore)
    ensures r.Success? ==> (r.value.1.RawShapes? <==> |offshore| == 0)
    ensures r.Success? && |offshore| == 0 ==> r.value.1 == RawShapes(offshoreShapes)
  {
    if |onshore| == 0 then Failure(NoOnshoreRegions)
    else Success((Flatten(onshore), if |offshore| > 0 then OffshoreRegions(Flatten(offshore)) else RawShapes(offshoreShapes)))
  }
}
