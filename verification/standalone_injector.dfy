/**
  The standalone script `inject_parking_stops.py`: load the catalog, then run the
  injector over the route file with a generator seeded from `--seed`.
 */
module StandaloneInjector {
  import opened Common
  import opened RandomSource
  import Decimal
  import Catalog
  import opened Injector

  /** `(len(vehicles), injected)` as `inject_stops` returns it, with the document it writes. */
  datatype Report = Report(total: nat, injected: nat, vehicles: seq<Vehicle>)

  /** `inject_stops`: refuses a route file without vehicles, otherwise injects from `random.Random(seed)`. */
  function InjectStops<S(!new)>(g: Generator<S>, fs: seq<Catalog.Facility>, cfg: Config, vs: seq<Vehicle>)
    : (r: Result<Report>)
    requires Valid(g)
    ensures r == Err(NoVehicleElements) <==> |vs| == 0
    ensures r.Err? ==> |vs| == 0 || r.error == EmptyParkingIdList || r.error == EmptyDurationRange
    ensures r.Ok? ==> && r.value.total == |vs|
                      && |r.value.vehicles| == |vs|
                      && r.value.injected == CountChanged(vs, r.value.vehicles)
                      && r.value.injected <= r.value.total
    ensures r.Ok? ==> forall k :: 0 <= k < |vs| ==> Processed(vs[k], r.value.vehicles[k], fs, cfg)
    ensures |vs| > 0 && |fs| > 0 && cfg.durMin <= cfg.durMax ==> r.Ok?
  {
    if |vs| == 0 then Err(NoVehicleElements)
    else
      match InjectAll(g, fs, cfg, vs, g.seed(cfg.seed))
      case Err(e) => Err(e)
      case Ok(o) =>
        InjectAllSound(g, fs, cfg, vs, g.seed(cfg.seed));
        Ok(Report(|vs|, o.injected, o.vehicles))
  }

  /** `main`: the catalog is loaded first, so a catalog without ids fails before the route file is looked at. */
  function Run<S(!new)>(g: Generator<S>, pas: seq<Catalog.Attributes>, cfg: Config, vs: seq<Vehicle>)
    : (r: Result<Report>)
    requires Valid(g)
    ensures (forall i :: 0 <= i < |pas| ==> !Catalog.HasId(pas[i])) ==> r == Err(NoParkingAreaElements)
    ensures (exists i :: 0 <= i < |pas| && Catalog.HasId(pas[i])) ==> r == InjectStops(g, Catalog.Collect(pas), cfg, vs)
    ensures r.Ok? ==> forall k :: 0 <= k < |vs| ==> Processed(vs[k], r.value.vehicles[k], Catalog.Collect(pas), cfg)
  {
    match Catalog.ParseParkingAreas(pas)
    case Err(e) => Err(e)
    case Ok(fs) => InjectStops(g, fs, cfg, vs)
  }

  /** Every stop the script writes names the id of some `<parkingArea>` of the additional file. */
  lemma InjectedStopsNameDeclaredAreas<S(!new)>(g: Generator<S>, pas: seq<Catalog.Attributes>, cfg: Config, vs: seq<Vehicle>, k: nat)
    requires Valid(g) && Run(g, pas, cfg, vs).Ok? && k < |vs|
    requires Run(g, pas, cfg, vs).value.vehicles[k] != vs[k]
    ensures var w := Run(g, pas, cfg, vs).value.vehicles[k];
            exists i :: 0 <= i < |pas| && Catalog.HasId(pas[i])
                        && w.children[|w.children| - 1].attributes["parkingArea"] == pas[i]["id"]
  {
    var fs := Catalog.Collect(pas);
    var w := Run(g, pas, cfg, vs).value.vehicles[k];
    assert GainedStop(vs[k], w, fs, cfg);
    var pa := w.children[|w.children| - 1].attributes["parkingArea"];
    assert pa in Catalog.Ids(fs);
    var j :| 0 <= j < |fs| && Catalog.Ids(fs)[j] == pa;
    assert fs[j] in fs;
    Catalog.CollectMembership(pas, fs[j]);
  }

  lemma {:induction false} CountEligibleNoStops(vs: seq<Vehicle>)
    requires forall k :: 0 <= k < |vs| ==> !HasStop(vs[k])
    ensures CountEligible(vs) == |vs|
    decreases |vs|
  {
    if |vs| > 0 {
      CountEligibleNoStops(vs[..|vs| - 1]);
    }
  }

  /** When every position was counted as changed, every position did change. */
  lemma {:induction false} CountChangedAll(vs: seq<Vehicle>, ws: seq<Vehicle>)
    requires |vs| == |ws| && CountChanged(vs, ws) == |vs|
    ensures forall k :: 0 <= k < |vs| ==> vs[k] != ws[k]
    decreases |vs|
  {
    if |vs| > 0 {
      var n := |vs| - 1;
      CountChangedAll(vs[..n], ws[..n]);
      assert forall k :: 0 <= k < n ==> vs[..n][k] == vs[k] && ws[..n][k] == ws[k];
    }
  }

  /** The stop a vehicle gains under a fixed duration of 100 and facilities X and Y. */
  ghost predicate StopAtXOrYFor100(v: Vehicle, w: Vehicle) {
    && |w.children| == |v.children| + 1
    && w.children[|v.children|].tag == "stop"
    && "parkingArea" in w.children[|v.children|].attributes
    && "duration" in w.children[|v.children|].attributes
    && w.children[|v.children|].attributes["parkingArea"] in {"X", "Y"}
    && Decimal.ReadInt(w.children[|v.children|].attributes["duration"]) == Some(100)
  }

  /** Under facilities X and Y and a duration range of 100..100, a gained stop is at X or Y for 100 seconds. */
  lemma GainedStopAtXOrYFor100(v: Vehicle, w: Vehicle)
    requires GainedStop(v, w, [Catalog.Facility("X", 1), Catalog.Facility("Y", 1)], Config(1.0, 100, 100, 7))
    ensures StopAtXOrYFor100(v, w)
  {
  }

  /**
    Ten vehicles without stops, facilities X and Y of weight 1, rate 1.0 and a
    fixed duration of 100: all ten get a stop at X or Y lasting 100 seconds,
    whatever the generator, for seed 7 as for any other.
   */
  lemma TenVehicleScenario<S(!new)>(g: Generator<S>, vs: seq<Vehicle>)
    requires Valid(g) && |vs| == 10
    requires forall k :: 0 <= k < |vs| ==> !HasStop(vs[k])
    ensures var r := InjectStops(g, [Catalog.Facility("X", 1), Catalog.Facility("Y", 1)], Config(1.0, 100, 100, 7), vs);
            && r.Ok? && r.value.total == 10 && r.value.injected == 10
            && forall k :: 0 <= k < 10 ==> StopAtXOrYFor100(vs[k], r.value.vehicles[k])
  {
    var fs := [Catalog.Facility("X", 1), Catalog.Facility("Y", 1)];
    var cfg := Config(1.0, 100, 100, 7);
    FullRateInjectsEveryEligible(g, fs, cfg, vs, g.seed(cfg.seed));
    CountEligibleNoStops(vs);
    var ws := InjectStops(g, fs, cfg, vs).value.vehicles;
    CountChangedAll(vs, ws);
    forall k | 0 <= k < 10
      ensures StopAtXOrYFor100(vs[k], ws[k])
    {
      assert Processed(vs[k], ws[k], fs, cfg);
      GainedStopAtXOrYFor100(vs[k], ws[k]);
    }
  }
}
