# pypsa-usa network preparation core, modelled in Dafny

This project models the parts of the pypsa-usa workflow that turn the base
network into the network and regions the later optimisation uses. It also
models the data-preparation helpers around those steps.

- **simplify_network** maps every line onto one voltage level. It replaces
  transformers by a one-hop bus map (`trafo_map`) and remaps every bus
  column through it. It composes bus maps, aggregates buses to substations
  and zones, and assigns line lengths.
- **build_bus_regions** builds Voronoi cells of bus locations inside a shape.
  Country mode builds per-country onshore and offshore regions. Balancing
  authority (BA) mode does the following:
  - it selects buses by shape;
  - it relabels their country;
  - it applies the bus 37584 hot fix;
  - it runs an offshore pass;
  - it prunes the buses still labelled "US", with their loads and lines.
- **retrieve_eia_data** covers:
  - the file name of a download URL;
  - bucketing six-month CSV files by the year field of their name;
  - removing thousands separators from demand values;
  - the output file name per year;
  - the `EBA.<BA>-ALL.D.H` header filter.
- **build_powerplants** covers:
  - annuity factors, on both the scalar and the Series path;
  - the `/kW` to `/MW` unit correction and default filling;
  - capital, marginal, solar and storage costs, and configured overwrites;
  - DC link costs, `normed` and `add_missing_carriers`;
  - heat-rate defaults and EIA plant unit conversions.
- **plot_loads** covers the sector × fuel carrier product and its inverse
  (splitting carriers back into sectors and fuels). It also covers the date
  of a day of year in 2019, and grouping load values by bus.

Numbers are exact `real`s. Wherever numpy would produce `inf`/`NaN` from a
division by zero, the model returns `None`; where Python raises, it returns
a `Failure`. Geometry is a term algebra: `Shape`, `VoronoiCell`, `Buffered`
and `Intersection`. Validity, area and point containment are supplied as an
`Oracle` value. The only thing assumed about it is that an intersection
contains exactly the points both operands contain.

Files: `outcomes.dfy` (Option/Result), `seqs.dfy`, `strings.dfy`,
`calendar.dfy` (proleptic Gregorian dates), `geometry.dfy`, `voronoi.dfy`,
`bus_regions.dfy`, `simplify_network.dfy`, `retrieve_eia.dfy`,
`powerplant_costs.dfy`, `plot_loads.dfy`.

Where the code and its documentation differ, the model follows the code:

- Transformer chains are resolved by exactly one hop (`map(trafo_map)` once),
  not by transitive closure. `SimplifyNetwork.OneHopChain` shows a
  three-transformer chain whose first bus ends one step short.
- `voronoi_partition_pts` with no points fails (`np.amin` of an empty
  array). So a BA-mode offshore shape that claims no bus aborts the run,
  rather than producing no region. In country mode, a configured country
  with no substation_lv bus aborts the run in the same way, as does a
  country with an offshore shape but no substation_off bus.
- `prepare_historical_load_data` raises when a kept column is itself
  renamed to `timestamp`, because the inserted index column would be a
  duplicate.
- `voronoi_partition_pts` with two or more points sharing one x or one y
  coordinate fails too. The guard corners then share that coordinate,
  all seeds are collinear and Qhull raises. The model reports this as a
  failure of the partition and of the pass that called it.
- The busmap composition of `simplify_network.py:136-137` is computed but
  never used downstream.
- Pruning of "US" buses happens only in BA mode.

## Model

| member | source | states |
|---|---|---|
| SimplifyNetwork.FirstTypeAt | workflow/scripts/simplify_network.py:21 | the chosen line type is one of the types of the lines already at the target level |
| SimplifyNetwork.Rescaled | workflow/scripts/simplify_network.py:22-27 | a rescaled line keeps num_parallel·v_nom² (its admittance-equivalent) while moving to the target level and type; nothing else changes |
| SimplifyNetwork.HarmoniseVoltage | workflow/scripts/simplify_network.py:19-27 | fails exactly when the lines at the target level do not have exactly one type; otherwise every bus is at the level, lines at the level are untouched, other lines are rescaled, transformers and other tables unchanged |
| SimplifyNetwork.HarmoniseIdempotent | workflow/scripts/simplify_network.py:19-27 | harmonising an already harmonised network changes nothing |
| SimplifyNetwork.FirstTargets | workflow/scripts/simplify_network.py:36-37 | keys are exactly the transformers' bus0 values; each maps to the bus1 of its first transformer |
| SimplifyNetwork.FirstTargetsValues | workflow/scripts/simplify_network.py:36-37 | every target of the deduplicated map is the bus1 of some transformer |
| SimplifyNetwork.ResolveOneHop | workflow/scripts/simplify_network.py:38-39 | a target that is itself a key is replaced by that key's target, once; keys unchanged |
| SimplifyNetwork.OneHopTerminal | workflow/scripts/simplify_network.py:38-39 | a resolved bus is terminal iff its chain has length at most two |
| SimplifyNetwork.OneHopChain | workflow/scripts/simplify_network.py:38-39 | on a chain a→b→c→d, a resolves to c, which is still a transformer bus |
| SimplifyNetwork.TrafoMap | workflow/scripts/simplify_network.py:36-42 | the map covers every bus and every transformer bus0; buses without transformers map to themselves; transformer buses map to their one-hop target |
| SimplifyNetwork.TrafoMapTotal | workflow/scripts/simplify_network.py:40-42 | every bus of the network is a key of the map |
| SimplifyNetwork.MapCell | workflow/scripts/simplify_network.py:48 | `Series.map`: a cell maps to a value iff it is a known key, otherwise it becomes missing |
| SimplifyNetwork.RemapRow | workflow/scripts/simplify_network.py:44-48 | exactly the columns starting with "bus" are mapped; all other columns and the column set are unchanged |
| SimplifyNetwork.Compose | workflow/scripts/simplify_network.py:137 | the composed map is defined exactly where both maps are, and is their composition |
| SimplifyNetwork.MapCellCompose | workflow/scripts/simplify_network.py:137 | mapping a cell twice equals mapping it once through the composed map |
| SimplifyNetwork.RemapRowCompose | workflow/scripts/simplify_network.py:44-48 | remapping a row twice equals remapping once with the composition |
| SimplifyNetwork.RemapRowIdentity | workflow/scripts/simplify_network.py:44-48 | remapping through the identity on a row's bus values leaves it unchanged |
| SimplifyNetwork.SurvivingBuses | workflow/scripts/simplify_network.py:51 | keeps exactly the buses whose names are values of the trafo map; its name set is the old one cut down to the reached names; with every bus reached nothing is removed |
| SimplifyNetwork.SurvivingBusesKeepOrder | workflow/scripts/simplify_network.py:51 | removal distributes over concatenation and keeps a single bus iff it is reached, so the survivors keep their order |
| SimplifyNetwork.RemapLines | workflow/scripts/simplify_network.py:44-48 | every line's two bus ends are mapped through the trafo map, nothing else changes |
| SimplifyNetwork.RemapTables | workflow/scripts/simplify_network.py:44-48 | every row of every other component table has its bus columns remapped |
| SimplifyNetwork.ContractTransformers | workflow/scripts/simplify_network.py:36-53 | returns the trafo map; transformers are removed; surviving buses are those reached by the map; lines and other tables are remapped |
| SimplifyNetwork.TrafoMapStaysOnBuses | workflow/scripts/simplify_network.py:36-42 | when every transformer end is a bus, every map value is a bus name |
| SimplifyNetwork.CellStaysOnSurvivingBus | workflow/scripts/simplify_network.py:44-51 | a cell naming a bus maps to a bus that survives the removal |
| SimplifyNetwork.LinesStayOnSurvivingBuses | workflow/scripts/simplify_network.py:44-51 | after contraction both ends of a line, bus0 and bus1, name a surviving bus whenever they named a bus before |
| SimplifyNetwork.SimplifyToVoltageLevel | workflow/scripts/simplify_network.py:16-53 | fails exactly when the line type is not unique; otherwise no transformers remain, every bus is at the level and the map covers every original bus |
| SimplifyNetwork.ComposeBusmaps | workflow/scripts/simplify_network.py:136-137 | the composed busmap has the trafo map's keys, and a value exactly where the composition is defined |
| SimplifyNetwork.ComposeOnUntouchedBus | workflow/scripts/simplify_network.py:136-137 | a bus without a transformer goes straight to its substation, or to none |
| SimplifyNetwork.CountryDict | workflow/scripts/simplify_network.py:76-78 | keys are exactly the substations of mapped buses |
| SimplifyNetwork.CountryDictLastWins | workflow/scripts/simplify_network.py:76-78 | `dict(zip(...))`: the last bus mapped to a substation decides its zone |
| SimplifyNetwork.AggregateBuses | workflow/scripts/simplify_network.py:79-92 | one bus per substation id; coordinates present iff the substation is known and equal to its lon/lat; both substation flags set; zone "US" unless BA zones are used, then the substation's BA |
| SimplifyNetwork.Relocate | workflow/scripts/simplify_network.py:100-103 | a bus gets a position iff its substation is known, and then takes that substation's coordinates |
| SimplifyNetwork.AssignLengths | workflow/scripts/simplify_network.py:107-110 | fails iff some line end has no position (`.loc` KeyError); otherwise each length is the distance between its ends times the factor |
| SimplifyNetwork.LengthDependsOnlyOnEnds | workflow/scripts/simplify_network.py:107-110 | two lines with the same end buses get the same length |
| Voronoi.MinX | workflow/scripts/build_bus_regions.py:82 | the minimum x is a lower bound attained by some point |
| Voronoi.MaxX | workflow/scripts/build_bus_regions.py:83 | the maximum x is an upper bound attained by some point |
| Voronoi.MinY | workflow/scripts/build_bus_regions.py:82 | the minimum y is a lower bound attained by some point |
| Voronoi.MaxY | workflow/scripts/build_bus_regions.py:83 | the maximum y is an upper bound attained by some point |
| Voronoi.GuardCorners | workflow/scripts/build_bus_regions.py:84-93 | four corners, three spans beyond the bounding box in each direction, in the source's order |
| Voronoi.PointsInsideGuard | workflow/scripts/build_bus_regions.py:87-93 | every point lies within the box spanned by the guard corners |
| Voronoi.Augmented | workflow/scripts/build_bus_regions.py:89-93 | the Voronoi input is the points followed by exactly the four guard corners |
| Voronoi.Repair | workflow/scripts/build_bus_regions.py:99-100 | a valid cell is kept; an invalid one is buffered by 0 |
| Voronoi.Partition | workflow/scripts/build_bus_regions.py:63-107 | fails iff there are no points (`np.amin` on an empty array) or two or more points with zero x-span or zero y-span (Qhull cannot triangulate collinear input); one cell per point; a single point gets the whole outline; otherwise each cell is the repaired Voronoi cell intersected with the outline |
| Voronoi.FlatSeedsCollinear | workflow/scripts/build_bus_regions.py:84-93 | with zero x-span every Voronoi seed, guard corners included, has the same x (likewise for y), so the seeds are collinear |
| Voronoi.PartitionWithinOutline | workflow/scripts/build_bus_regions.py:102 | every cell lies within the outline |
| Voronoi.CellOfOwnPoint | workflow/scripts/build_bus_regions.py:95-104 | for a partition of two or more non-collinear points, cell i is built from point i's Voronoi region |
| BusRegions.LookupShape | workflow/scripts/build_bus_regions.py:146-147 | no shape iff no shape has the name; otherwise a shape with that name |
| BusRegions.RegionsOf | workflow/scripts/build_bus_regions.py:138-144 | one region per bus carrying its name, coordinates, cell and label |
| BusRegions.Partitioned | workflow/scripts/build_bus_regions.py:138-144 | fails iff no bus is given or two or more collinear buses are; otherwise one region per bus, with its name, label and coordinates, each inside the shape |
| BusRegions.DropSmall | workflow/scripts/build_bus_regions.py:156 | keeps exactly the regions with area above 0.01, in order |
| BusRegions.DropSmallKeepsOrder | workflow/scripts/build_bus_regions.py:156 | filtering distributes over concatenation and keeps an all-large list unchanged |
| BusRegions.CountryOnshore | workflow/scripts/build_bus_regions.py:134-144 | fails iff the country has no shape or its substation_lv selection is empty or collinear; otherwise one region per selected bus, in table order, named after it and labelled with the country |
| BusRegions.CountrySelection | workflow/scripts/build_bus_regions.py:134-137 | exactly the buses of the country with the substation flag (substation_lv onshore, substation_off offshore) |
| BusRegions.CountryOffshore | workflow/scripts/build_bus_regions.py:146-157 | no offshore shape means nothing is added; otherwise fails iff the substation_off selection is empty or collinear, and else yields exactly the large cells of that selection's partition |
| BusRegions.CountryMode | workflow/scripts/build_bus_regions.py:131-157 | succeeds iff every country's onshore and offshore partitions do; then the onshore list holds each country's onshore table in configuration order and the offshore list one table per country with an offshore shape, each country's included |
| BusRegions.CountryWithoutOffshoreShape | workflow/scripts/build_bus_regions.py:146 | a country missing from the offshore shapes contributes no offshore region |
| BusRegions.Relabel | workflow/scripts/build_bus_regions.py:183 | exactly the selected buses get the new label; the others are unchanged |
| BusRegions.HotFix | workflow/scripts/build_bus_regions.py:186 | bus 37584 is labelled CISO-SDGE; every other bus is unchanged |
| BusRegions.OnshoreSelection | workflow/scripts/build_bus_regions.py:167-170 | exactly the substation_lv buses whose location the BA shape contains |
| BusRegions.OnshoreSitesAgree | workflow/scripts/build_bus_regions.py:167-170 | the selection looks only at the flag and the location: tables that differ only in zones give selections at the same sites |
| BusRegions.BaPass | workflow/scripts/build_bus_regions.py:161-186 | a BA without a shape, or with no bus inside it, changes nothing; the pass fails iff its buses are collinear; otherwise one region batch is added, no bus is lost and only country labels change |
| BusRegions.BaPassRelabels | workflow/scripts/build_bus_regions.py:176-186 | after a successful non-skipped pass the selected buses carry the BA's name, except the hot-fix bus |
| BusRegions.BaLoop | workflow/scripts/build_bus_regions.py:161-186 | succeeds iff no configured BA with a shape selects collinear substations, a raising pass ending the run; on success the bus count is kept, only zones change, earlier batches stay in front and at most one batch is added per BA |
| BusRegions.LastBa | workflow/scripts/build_bus_regions.py:161-183 | none iff no BA with a shape contains the bus as a substation_lv bus; otherwise the last such BA of the list |
| BusRegions.SelectedIffClaimed | workflow/scripts/build_bus_regions.py:167-183 | a bus is among a BA's relabelled names iff that BA's shape contains it as a substation_lv bus |
| BusRegions.BaPassLabel | workflow/scripts/build_bus_regions.py:161-186 | a successful pass gives a bus other than the hot-fix bus the BA's name iff the BA claims it, and leaves its zone otherwise |
| BusRegions.BaLastShapeWins | workflow/scripts/build_bus_regions.py:161-186 | after a successful BA loop every bus other than the hot-fix bus carries the last claiming BA's name, or its old zone if none claims it |
| BusRegions.OffshoreSelection | workflow/scripts/build_bus_regions.py:193-195 | exactly the substation_off buses inside the shape buffered by 0.2 |
| BusRegions.OffshoreSitesAgree | workflow/scripts/build_bus_regions.py:193-195 | the offshore selection ignores zones: relabelled tables give selections at the same sites |
| BusRegions.OffshorePass | workflow/scripts/build_bus_regions.py:190-204 | fails iff the shape claims no bus or claims two or more collinear buses; otherwise claimed buses are relabelled with the shape name and the kept regions are large |
| BusRegions.OffshoreLoop | workflow/scripts/build_bus_regions.py:190-204 | succeeds iff every shape selects offshore substations that are neither absent nor collinear; then one batch per shape, and only zones change |
| BusRegions.LastClaim | workflow/scripts/build_bus_regions.py:190-204 | none iff no shape claims the bus; otherwise the index of the last claiming shape |
| BusRegions.OffshoreLastShapeWins | workflow/scripts/build_bus_regions.py:204 | a bus's label after the offshore loop is the last claiming shape's name, or unchanged if none claims it |
| BusRegions.ClaimedIff | workflow/scripts/build_bus_regions.py:195-204 | a bus is among the relabelled names iff the shape claims it |
| BusRegions.Prune | workflow/scripts/build_bus_regions.py:210-212 | exactly the buses not labelled "US" remain; loads at "US" buses and lines whose bus1 is a "US" bus are removed, all others kept |
| BusRegions.PruneFate | workflow/scripts/build_bus_regions.py:212 | with unique names, a bus survives pruning iff its zone is not "US", and the surviving bus of that name is the bus itself |
| BusRegions.PruneKeepsLineFromRemovedBus | workflow/scripts/build_bus_regions.py:210 | a line whose bus0 is removed but whose bus1 stays is kept, dangling |
| BusRegions.BaMode | workflow/scripts/build_bus_regions.py:159-212 | succeeds iff no BA partition raises on the input buses and no offshore shape is empty or collinear; then at most one onshore batch per BA, one offshore batch per shape, and no "US" bus remains |
| BusRegions.LoopedBusZone | workflow/scripts/build_bus_regions.py:161-204 | after both loops each bus other than the hot-fix bus carries its last offshore claim, else its last BA claim, else its old zone |
| BusRegions.BaModeBusFate | workflow/scripts/build_bus_regions.py:159-212 | a bus other than the hot-fix bus survives BA mode iff its final zone is not "US", and a survivor carries that zone |
| BusRegions.Outputs | workflow/scripts/build_bus_regions.py:220-224 | concatenating no onshore batch raises; no offshore regions means the raw shapes are written |
| RetrieveEia.AuthorityOfHeader | workflow/scripts/retrieve_eia_data.py:103-108 | present iff the column matches `EBA.<x>-ALL.D.H` from its start, and then is the lazily matched group |
| RetrieveEia.FilterHeader | workflow/scripts/retrieve_eia_data.py:106-110 | keeps exactly the matching columns, in order, renamed to their authority after a leading timestamp column; raises iff some column renames to "timestamp" |
| RetrieveEia.YearKey | workflow/scripts/retrieve_eia_data.py:60 | present iff the name has at least two underscores; the key holds no underscore and is the third field: the name is two underscore-free fields, the key and a rest that is empty or starts with an underscore |
| RetrieveEia.YearKeyOfSixMonthFile | workflow/scripts/retrieve_eia_data.py:141-153 | for `EIA930_BALANCE_<year>_<half>.csv` the key is the year, whatever the half part holds |
| RetrieveEia.YearKeyOfJanJun | workflow/scripts/retrieve_eia_data.py:141-153 | the key of a `..._Jan_Jun.csv` download is its year |
| RetrieveEia.Buckets | workflow/scripts/retrieve_eia_data.py:57-67 | fails iff some CSV name lacks a year field; non-CSV files are ignored |
| RetrieveEia.BucketsAreYearFilters | workflow/scripts/retrieve_eia_data.py:57-69 | each bucket is exactly the CSV files of that year, in listing order, and a year has a bucket iff it has a file |
| RetrieveEia.BucketsStep | workflow/scripts/retrieve_eia_data.py:57-67 | appending one file keeps every bucket equal to its year's filter |
| RetrieveEia.OutputFileNamesDistinct | workflow/scripts/retrieve_eia_data.py:77 | the `EIA_DMD_<year>.csv` name determines the year |
| RetrieveEia.StripCommas | workflow/scripts/retrieve_eia_data.py:64 | no comma remains and exactly the commas are removed |
| RetrieveEia.StripCommasConcat | workflow/scripts/retrieve_eia_data.py:64 | stripping distributes over concatenation |
| RetrieveEia.StripCommasNoComma | workflow/scripts/retrieve_eia_data.py:64 | a value without commas is unchanged |
| RetrieveEia.UrlFileName | workflow/scripts/retrieve_eia_data.py:36 | the result is a suffix of the URL with no slash, preceded by a slash unless it is the whole URL |
| RetrieveEia.UrlFileNameAfterLastSlash | workflow/scripts/retrieve_eia_data.py:36 | the file name of `dir/name` is `name` when `name` has no slash |
| PowerplantCosts.AnnuityScalar | workflow/scripts/build_powerplants.py:640-654 | defined iff n ≥ 1; for r > 0 it satisfies a·(1 − (1+r)^−n) = r and exceeds r; otherwise a·n = 1 |
| PowerplantCosts.AnnuityElement | workflow/scripts/build_powerplants.py:646-650 | 1/n only at r = 0; elsewhere the annuity identity holds where finite; r = −1 gives 0 |
| PowerplantCosts.AnnuityPathsAgree | workflow/scripts/build_powerplants.py:646-654 | for non-negative rates the Series and scalar paths agree |
| PowerplantCosts.AnnuityPathsDisagreeForNegativeRate | workflow/scripts/build_powerplants.py:646-654 | for −1 < r < 0 and n = 1 the Series path yields 1 + r and the scalar path 1 |
| PowerplantCosts.ReplacePerKw | workflow/scripts/build_powerplants.py:155 | same length; exactly the `k` of each `/kW` becomes `M` |
| PowerplantCosts.NoPerKwAfterReplace | workflow/scripts/build_powerplants.py:155 | no `/kW` remains after replacement |
| PowerplantCosts.ReplaceWithoutPerKw | workflow/scripts/build_powerplants.py:155 | a unit without `/kW` is unchanged |
| PowerplantCosts.NormaliseUnit | workflow/scripts/build_powerplants.py:153-155 | `/kW` rows are scaled by 1000; every unit has each `/kW` rewritten to `/MW`, so none remains; other rows are unchanged |
| PowerplantCosts.FillDefaults | workflow/scripts/build_powerplants.py:158-159 | present values are kept; missing ones take the default if there is one |
| PowerplantCosts.AnnualisedCost | workflow/scripts/build_powerplants.py:161-168 | non-negative for non-negative inputs |
| PowerplantCosts.CapitalCost | workflow/scripts/build_powerplants.py:161-168 | defined iff the annuity is finite, and then (annuity + FOM/100)·investment·Nyears |
| PowerplantCosts.AnnualisedCostLinearInYears | workflow/scripts/build_powerplants.py:161-168 | capital cost scales linearly with Nyears |
| PowerplantCosts.CapitalCostAtZeroRate | workflow/scripts/build_powerplants.py:646-648 | at a zero rate the annuity part is 1/lifetime |
| PowerplantCosts.MarginalCost | workflow/scripts/build_powerplants.py:173 | defined iff efficiency ≠ 0, and then (cost − VOM)·efficiency = fuel |
| PowerplantCosts.SolarCapitalCost | workflow/scripts/build_powerplants.py:180-183 | for a share in [0,1] the blend lies between rooftop and utility cost, equal to either at the extremes |
| PowerplantCosts.CostsForStorage | workflow/scripts/build_powerplants.py:185-191 | no marginal cost or emissions; capital cost minus the links is max_hours × store cost |
| PowerplantCosts.StorageSecondLinkAdds | workflow/scripts/build_powerplants.py:187-188 | a second link adds exactly its own capital cost |
| PowerplantCosts.StorageMonotoneInHours | workflow/scripts/build_powerplants.py:186 | more hours never make storage cheaper |
| PowerplantCosts.ApplyOverwrites | workflow/scripts/build_powerplants.py:205-209 | fails iff some configured technology is not a row of the table, naming exactly those; otherwise the rows are unchanged, overwritten technologies take the configured value and all others keep theirs |
| PowerplantCosts.ApplyOverwritesIdempotent | workflow/scripts/build_powerplants.py:205-209 | applying the same overwrites twice equals applying them once |
| PowerplantCosts.LineCapitalCost | workflow/scripts/build_powerplants.py:393-395 | zero when the length, the factor or the price is zero; non-negative for non-negative inputs |
| PowerplantCosts.LineCapitalCostAdditive | workflow/scripts/build_powerplants.py:393-395 | a line costs what its two pieces cost |
| PowerplantCosts.UpdateLineCosts | workflow/scripts/build_powerplants.py:393-395 | every line is re-priced from its own length |
| PowerplantCosts.DcLinkCost | workflow/scripts/build_powerplants.py:407-417 | for an underwater fraction in [0,1], the cost minus the inverter lies between the cheaper and the dearer per-km price times the length |
| PowerplantCosts.UpdateLinkCosts | workflow/scripts/build_powerplants.py:397-418 | only DC links are re-priced; all other links are unchanged |
| PowerplantCosts.SumScale | workflow/scripts/build_powerplants.py:637 | scaling every element scales the sum |
| PowerplantCosts.Normed | workflow/scripts/build_powerplants.py:633-637 | an empty Series stays empty; otherwise defined iff the total is non-zero, and then the result sums to 1 and each element times the total is the original |
| PowerplantCosts.AddMissingCarriers | workflow/scripts/build_powerplants.py:657-663 | the carriers become the old ones plus the wanted ones; existing rows are unchanged and new ones get defaults |
| PowerplantCosts.AddMissingCarriersNoOp | workflow/scripts/build_powerplants.py:661-663 | adding only carriers that already exist changes nothing |
| PowerplantCosts.HeatRate | workflow/scripts/build_powerplants.py:672-678 | a reported heat rate is kept; a missing one takes the fuel default divided by 1000, or stays missing |
| PowerplantCosts.ConvertEiaPlant | workflow/scripts/build_powerplants.py:861-874 | efficiency × heat rate = 3.412 and marginal cost × efficiency = 3.412 × fuel cost; marginal cost = heat rate × fuel cost; ramp limits × capacity = 60 × MW/min; each is undefined exactly at a zero divisor |
| PlotLoads.CarrierProductLength | workflow/scripts/plot_loads.py:107-116 | the product has \|sectors\|·\|fuels\| carriers |
| PlotLoads.CarrierProductItem | workflow/scripts/plot_loads.py:113-115 | entry i·\|fuels\|+j is `sector_i-fuel_j` |
| PlotLoads.LoadCarriers | workflow/scripts/plot_loads.py:107-116 | the nested loops build the sector-major product; empty iff either list is empty |
| PlotLoads.SectorsAndFuels | workflow/scripts/plot_loads.py:77-79 | fails iff some carrier lacks a `-`, naming it; otherwise the sets of first and second fields |
| PlotLoads.CarrierNameFields | workflow/scripts/plot_loads.py:78-79 | splitting `sector-fuel` gives back sector and fuel when neither contains `-` |
| PlotLoads.ProductItemFields | workflow/scripts/plot_loads.py:107-116 | every carrier of the product splits into some sector and some fuel |
| PlotLoads.ProductHasPair | workflow/scripts/plot_loads.py:107-116 | every sector–fuel pair occurs in the product |
| PlotLoads.SectorsAndFuelsOfProduct | workflow/scripts/plot_loads.py:77-79 | splitting the product of non-empty lists recovers exactly the sector and fuel sets |
| PlotLoads.DateOfDay | workflow/scripts/plot_loads.py:137 | day-of-year doy maps to a valid date doy − 1 days after 2019-01-01 |
| PlotLoads.DateOfFirstDay | workflow/scripts/plot_loads.py:137 | day 1 is 2019-01-01 |
| PlotLoads.DateOfLastDay | workflow/scripts/plot_loads.py:137 | day 365 is 2019-12-31 |
| PlotLoads.DateAfterLastDay | workflow/scripts/plot_loads.py:137 | day 366 rolls over to 2020-01-01 |
| PlotLoads.FilterOnTime | workflow/scripts/plot_loads.py:136-138 | succeeds iff the date exists and is in the frame, returning that day's row |
| PlotLoads.GroupByBus | workflow/scripts/plot_loads.py:141-150 | one entry per bus that some load maps to, holding the sum of that bus's loads |
| PlotLoads.BusTotalNotOnBus | workflow/scripts/plot_loads.py:148-150 | a bus with no load sums to 0 |
| PlotLoads.GroupByBusKeepsTotal | workflow/scripts/plot_loads.py:141-150 | the grouped values add up to the total of all mapped loads |
| Calendar.DateInYear | workflow/scripts/plot_loads.py:137 | the k-th day of a year is a valid date of that year with day-of-year k |
| Calendar.DateInYearOfDayOfYear | workflow/scripts/plot_loads.py:137 | a valid date is recovered from its year and day-of-year |
| Calendar.YearStartStep | workflow/scripts/plot_loads.py:137 | consecutive year starts differ by the length of the year |
| Calendar.DayOfYearBelowYear | workflow/scripts/plot_loads.py:137 | the position of a valid date lies inside its year |
| Calendar.DayNumberOrdered | workflow/scripts/plot_loads.py:137 | every day of an earlier year has a smaller day number than every day of a later one |
| Calendar.DayNumberInjective | workflow/scripts/plot_loads.py:137 | distinct valid dates have distinct day numbers |
| Calendar.AddDays | workflow/scripts/plot_loads.py:137 | `datetime + timedelta`: succeeds iff the result lies in years 1–9999, and then is the valid date with that day number |

## Left out

- Line `s_nom` recomputation with √3 (simplify_network.py:28-33): it needs square roots and the pypsa line-type table.
- `aggregate_to_substations`' pypsa clustering (simplify_network.py:60-75): it is pypsa library code. Only the bus attributes set afterwards are modelled.
- `lines["type"] = NaN` after aggregation (simplify_network.py:93): a constant assignment with nothing to prove.
- Haversine distance: it is passed to `AssignLengths` as a function parameter, because trigonometry is not modelled. The links half of `assign_line_lengths` is the same computation as the lines half.
- Voronoi geometry, polygon validity, buffering, area and containment: these are Shapely and SciPy computations, supplied through the `Oracle` value.
- The hot fix when bus 37584 is absent: pandas then enlarges the bus table with a new row, which the model does not add.
- `pdb.set_trace()` calls, logging, file and network I/O, and netCDF/GeoJSON export: these are side effects outside the computation.
- `download_historical_load_data`, `prepare_eia_load_data` and the timestamp indexing in `prepare_historical_load_data`: these are I/O and pandas date parsing. `prepare_eia_load_data` also stops in the debugger.
- Reading, unstacking, sorting, interpolation and `dropna` in `read_and_concat_csvs`: these are pandas table operations. Only the file bucketing, comma stripping and output naming are modelled.
- Copying OCGT/CCGT fuel and emissions from gas (build_powerplants.py:170-178): plain table copies.
- Dash callbacks and plotting in plot_loads.py, and `get_load_timeseries`' daily resampling: UI code and pandas time-series resampling.
- Floating-point rounding: costs are exact reals.
- Asset lifetimes are natural numbers: the annuity with a non-integer lifetime needs real powers.
- BallTree nearest-bus matching and the `random.randint` bus pick in build_powerplants.py: a library spatial index, and a nondeterministic choice.
- Hydro attachment, time-series marginal-cost joins, fuel-cost lookups and the `main` wiring of build_powerplants.py: pandas joins and I/O around the modelled formulas.
- SimplifyNetwork.HarmoniseVoltage: requires a positive target level, because the source divides by it.
- BusRegions.LookupShape: with duplicate shape names it returns the first, whereas pandas would return a Series.
- BusRegions.OffshoreLastShapeWins: requires unique bus names, as pypsa bus indices are.
- BusRegions.BaLastShapeWins: requires unique bus names, as pypsa bus indices are, and says nothing about the hot-fix bus, which every non-skipped pass relabels.
- BusRegions.LoopedBusZone: requires unique bus names and excludes the hot-fix bus, for the reasons given for BaLastShapeWins.
- BusRegions.BaModeBusFate: requires unique bus names and excludes the hot-fix bus, for the reasons given for BaLastShapeWins.
