/**
  The scenario pipeline `generate_parking_routes.py`: a fixed table of scenarios,
  one catalog loaded once, and for each scenario in table order an injector run
  seeded with `base_seed + index * 1000`. The route files each scenario starts
  from come from external tools and are inputs here.
 */
module ParkingRoutesPipeline {
  import opened Common
  import opened RandomSource
  import Catalog
  import opened Injector
  import StandaloneInjector

  /** One entry of `SCENARIOS`. */
  datatype Scenario = Scenario(name: string, period: nat, parkRate: real, durMin: int, durMax: int)

  /** `SCENARIOS`, in the dictionary's insertion order, which `enumerate` follows. */
  const Scenarios: seq<Scenario> := [
    Scenario("busy", 5, 0.70, 300, 1200),
    Scenario("default", 10, 0.50, 600, 1800),
    Scenario("quiet", 15, 0.30, 900, 2400)
  ]

  const SeedStride: int := 1000

  /** `scenario_seed = base_seed + index * 1000`. */
  function ScenarioSeed(base: int, index: nat): int {
    base + index * SeedStride
  }

  /** The injector settings of scenario `index`: a rate in [0, 1] and a non-empty duration range. */
  function ScenarioConfig(base: int, index: nat): (cfg: Config)
    requires index < |Scenarios|
    ensures 0.0 <= cfg.rate <= 1.0 && cfg.durMin <= cfg.durMax
    ensures cfg.seed - base == index * SeedStride
  {
    var sc := Scenarios[index];
    Config(sc.parkRate, sc.durMin, sc.durMax, ScenarioSeed(base, index))
  }

  /** The document `inject_parking_stops` writes and the count it reports. */
  datatype Written = Written(vehicles: seq<Vehicle>, injected: nat)

  /** `inject_parking_stops`: unlike the standalone copy, a route file without vehicles is written back with no vehicle changed and 0 injected. */
  function InjectParkingStops<S(!new)>(g: Generator<S>, fs: seq<Catalog.Facility>, cfg: Config, vs: seq<Vehicle>)
    : (r: Result<Written>)
    requires Valid(g)
    ensures |vs| == 0 ==> r == Ok(Written([], 0))
    ensures r.Err? ==> r.error == EmptyParkingIdList || r.error == EmptyDurationRange
    ensures r.Ok? ==> && |r.value.vehicles| == |vs|
                      && r.value.injected == CountChanged(vs, r.value.vehicles)
                      && r.value.injected <= |vs|
    ensures r.Ok? ==> forall k :: 0 <= k < |vs| ==> Processed(vs[k], r.value.vehicles[k], fs, cfg)
    ensures |fs| > 0 && cfg.durMin <= cfg.durMax ==> r.Ok?
  {
    match InjectAll(g, fs, cfg, vs, g.seed(cfg.seed))
    case Err(e) => Err(e)
    case Ok(o) =>
      InjectAllSound(g, fs, cfg, vs, g.seed(cfg.seed));
      Ok(Written(o.vehicles, o.injected))
  }

  /** On a non-empty route file the two copies of the injector write the same document and count. */
  lemma CopiesAgree<S(!new)>(g: Generator<S>, fs: seq<Catalog.Facility>, cfg: Config, vs: seq<Vehicle>)
    requires Valid(g) && |vs| > 0
    ensures var a := StandaloneInjector.InjectStops(g, fs, cfg, vs);
            var b := InjectParkingStops(g, fs, cfg, vs);
            && (a.Ok? <==> b.Ok?)
            && (a.Ok? ==> a.value == StandaloneInjector.Report(|vs|, b.value.injected, b.value.vehicles))
            && (a.Err? ==> a.error == b.error)
  {
  }

  /** The first n scenarios, in table order; the first failure ends the run. */
  function RunScenarios<S(!new)>(g: Generator<S>, fs: seq<Catalog.Facility>, base: int, routes: seq<seq<Vehicle>>, n: nat)
    : (r: Result<seq<Written>>)
    requires Valid(g) && |routes| == |Scenarios| && n <= |Scenarios|
    ensures r.Ok? ==> |r.value| == n
    ensures r.Ok? ==> forall i :: 0 <= i < n ==> InjectParkingStops(g, fs, ScenarioConfig(base, i), routes[i]) == Ok(r.value[i])
    ensures r.Err? ==> exists i :: 0 <= i < n && InjectParkingStops(g, fs, ScenarioConfig(base, i), routes[i]).Err?
    ensures |fs| > 0 ==> r.Ok?
    decreases n
  {
    if n == 0 then Ok([])
    else
      match RunScenarios(g, fs, base, routes, n - 1)
      case Err(e) => Err(e)
      case Ok(done) =>
        match InjectParkingStops(g, fs, ScenarioConfig(base, n - 1), routes[n - 1])
        case Err(e) => Err(e)
        case Ok(w) => Ok(done + [w])
  }

  /**
    `main`: load the catalog once, then run every scenario. Each scenario's result
    is exactly a single run with seed `base + index * 1000`, unaffected by the others.
   */
  function GenerateParkingRoutes<S(!new)>(g: Generator<S>, pas: seq<Catalog.Attributes>, base: int, routes: seq<seq<Vehicle>>)
    : (r: Result<seq<Written>>)
    requires Valid(g) && |routes| == |Scenarios|
    ensures (forall i :: 0 <= i < |pas| ==> !Catalog.HasId(pas[i])) ==> r == Err(NoParkingAreaElements)
    ensures (exists i :: 0 <= i < |pas| && Catalog.HasId(pas[i])) ==>
              && r.Ok? && |r.value| == |Scenarios|
              && forall i :: 0 <= i < |Scenarios| ==>
                   InjectParkingStops(g, Catalog.Collect(pas), ScenarioConfig(base, i), routes[i]) == Ok(r.value[i])
  {
    match Catalog.ParseParkingAreas(pas)
    case Err(e) => Err(e)
    case Ok(fs) => RunScenarios(g, fs, base, routes, |Scenarios|)
  }

  /** The three scenario seeds are pairwise distinct, for every base seed. */
  lemma ScenarioSeedsDistinct(base: int)
    ensures forall i: nat, j: nat :: i < j < |Scenarios| ==> ScenarioSeed(base, i) != ScenarioSeed(base, j)
  {
  }

  /** With the default base seed 42 the scenarios busy, default and quiet run with seeds 42, 1042 and 2042. */
  lemma DefaultScenarioSeeds()
    ensures Scenarios[0].name == "busy" && ScenarioSeed(42, 0) == 42
    ensures Scenarios[1].name == "default" && ScenarioSeed(42, 1) == 1042
    ensures Scenarios[2].name == "quiet" && ScenarioSeed(42, 2) == 2042
  {
  }
}
