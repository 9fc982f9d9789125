/**
  The per-vehicle decision shared by `inject_stops` (standalone script) and
  `inject_parking_stops` (scenario pipeline): vehicles are visited in document
  order with one generator whose state is threaded from each vehicle to the next.
 */
module Injector {
  import opened Common
  import opened RandomSource
  import Decimal
  import Catalog
  import Selector

  /** A child element of a `<vehicle>`: its tag and attributes. */
  datatype Child = Child(tag: string, attributes: Catalog.Attributes)

  /** A `<vehicle>` as `findall(".//vehicle")` yields it. */
  datatype Vehicle = Vehicle(attributes: Catalog.Attributes, children: seq<Child>)

  /** rate, dur_min, dur_max and seed of one run. */
  datatype Config = Config(rate: real, durMin: int, durMax: int, seed: int)

  /** The documents written and the number of stops injected, with the generator state after the last vehicle. */
  datatype Outcome<S> = Outcome(vehicles: seq<Vehicle>, injected: nat, state: S)

  /** One vehicle after its visit, whether a stop was added, and the generator state. */
  datatype Visit<S> = Visit(vehicle: Vehicle, added: bool, state: S)

  /** `v.find("stop") is not None`. */
  predicate HasStop(v: Vehicle) {
    exists i :: 0 <= i < |v.children| && v.children[i].tag == "stop"
  }

  /** `ET.Element("stop", {"parkingArea": pa, "duration": str(dur)})`. */
  function StopElement(parkingArea: string, duration: int): Child {
    Child("stop", map["parkingArea" := parkingArea, "duration" := Decimal.IntToString(duration)])
  }

  /** A stop the injector may write: it names a catalog facility and a duration in [dur_min, dur_max]. */
  ghost predicate ValidStop(c: Child, fs: seq<Catalog.Facility>, cfg: Config) {
    && c.tag == "stop"
    && c.attributes.Keys == {"parkingArea", "duration"}
    && c.attributes["parkingArea"] in Catalog.Ids(fs)
    && Decimal.ReadInt(c.attributes["duration"]).Some?
    && cfg.durMin <= Decimal.ReadInt(c.attributes["duration"]).value <= cfg.durMax
  }

  /** w is v, which had no stop, with one valid stop appended as its last child and nothing else changed. */
  ghost predicate GainedStop(v: Vehicle, w: Vehicle, fs: seq<Catalog.Facility>, cfg: Config) {
    && !HasStop(v)
    && w.attributes == v.attributes
    && |w.children| == |v.children| + 1
    && w.children[..|v.children|] == v.children
    && ValidStop(w.children[|v.children|], fs, cfg)
  }

  /** The two possible fates of a vehicle: left as it was, or given exactly one stop. */
  ghost predicate Processed(v: Vehicle, w: Vehicle, fs: seq<Catalog.Facility>, cfg: Config) {
    w == v || GainedStop(v, w, fs, cfg)
  }

  /** The number of positions at which ws differs from vs. */
  function CountChanged(vs: seq<Vehicle>, ws: seq<Vehicle>): (n: nat)
    requires |vs| == |ws|
    ensures n <= |vs|
    decreases |vs|
  {
    if |vs| == 0 then 0
    else CountChanged(vs[..|vs| - 1], ws[..|ws| - 1]) + (if vs[|vs| - 1] != ws[|ws| - 1] then 1 else 0)
  }

  /** The number of vehicles without a stop, those the injector draws for. */
  function CountEligible(vs: seq<Vehicle>): (n: nat)
    ensures n <= |vs|
    decreases |vs|
  {
    if |vs| == 0 then 0
    else CountEligible(vs[..|vs| - 1]) + (if HasStop(vs[|vs| - 1]) then 0 else 1)
  }

  /** `sum(weights)` of the catalog, the upper end of the facility draw. */
  function TotalWeight(fs: seq<Catalog.Facility>): real {
    Selector.Total(Catalog.Weights(fs)) as real
  }

  /**
    The body of the injector's loop for one vehicle: a vehicle with a stop is
    skipped without a draw; otherwise one random() draw decides, and only a
    successful one is followed by the facility draw and then the duration draw.
   */
  function VisitVehicle<S(!new)>(g: Generator<S>, fs: seq<Catalog.Facility>, cfg: Config, v: Vehicle, s: S)
    : (r: Result<Visit<S>>)
    requires Valid(g)
    ensures HasStop(v) ==> r == Ok(Visit(v, false, s))
    ensures !HasStop(v) && g.random(s).0 > cfg.rate ==> r == Ok(Visit(v, false, g.random(s).1))
    ensures !HasStop(v) && g.random(s).0 <= cfg.rate ==>
              var s1 := g.random(s).1;
              var (x, s2) := g.uniform(s1, 0.0, TotalWeight(fs));
              var (dur, s3) := g.randInt(s2, cfg.durMin, cfg.durMax);
              if |fs| == 0 then r == Err(EmptyParkingIdList)
              else if cfg.durMin > cfg.durMax then r == Err(EmptyDurationRange)
              else r == Ok(Visit(v.(children := v.children + [StopElement(Selector.Pick(fs, x).value, dur)]), true, s3))
  {
    if HasStop(v) then Ok(Visit(v, false, s))
    else
      var (draw, s1) := g.random(s);
      if draw > cfg.rate then Ok(Visit(v, false, s1))
      else if |fs| == 0 then Err(EmptyParkingIdList)
      else
        var (x, s2) := g.uniform(s1, 0.0, TotalWeight(fs));
        var pa := Selector.Pick(fs, x).value;
        if cfg.durMin > cfg.durMax then Err(EmptyDurationRange)
        else
          var (dur, s3) := g.randInt(s2, cfg.durMin, cfg.durMax);
          Ok(Visit(v.(children := v.children + [StopElement(pa, dur)]), true, s3))
  }

  /** A visit leaves the vehicle as it was, or adds exactly one stop naming a catalog facility with a duration in range. */
  lemma VisitSound<S(!new)>(g: Generator<S>, fs: seq<Catalog.Facility>, cfg: Config, v: Vehicle, s: S)
    requires Valid(g) && VisitVehicle(g, fs, cfg, v, s).Ok?
    ensures var t := VisitVehicle(g, fs, cfg, v, s).value;
            && (t.added ==> GainedStop(v, t.vehicle, fs, cfg))
            && (!t.added ==> t.vehicle == v)
  {
  }

  /** The injector's loop over vehicles, in document order, from generator state s. */
  function InjectAll<S(!new)>(g: Generator<S>, fs: seq<Catalog.Facility>, cfg: Config, vs: seq<Vehicle>, s: S)
    : (r: Result<Outcome<S>>)
    requires Valid(g)
    ensures r.Ok? ==> |r.value.vehicles| == |vs|
    ensures r.Err? ==> r.error == EmptyParkingIdList || r.error == EmptyDurationRange
    ensures |fs| > 0 && cfg.durMin <= cfg.durMax ==> r.Ok?
    decreases |vs|
  {
    if |vs| == 0 then Ok(Outcome([], 0, s))
    else
      Extend(g, fs, cfg, InjectAll(g, fs, cfg, vs[..|vs| - 1], s), vs[|vs| - 1])
  }

  /**
    What a successful run wrote: every vehicle either as it was or with exactly one
    valid stop appended, and `injected` is the number of vehicles that changed.
   */
  lemma {:induction false} InjectAllSound<S(!new)>(g: Generator<S>, fs: seq<Catalog.Facility>, cfg: Config, vs: seq<Vehicle>, s: S)
    requires Valid(g) && InjectAll(g, fs, cfg, vs, s).Ok?
    ensures var o := InjectAll(g, fs, cfg, vs, s).value;
            && (forall k :: 0 <= k < |vs| ==> Processed(vs[k], o.vehicles[k], fs, cfg))
            && o.injected == CountChanged(vs, o.vehicles)
    decreases |vs|
  {
    if |vs| > 0 {
      var init := vs[..|vs| - 1];
      InjectAllSound(g, fs, cfg, init, s);
      var o := InjectAll(g, fs, cfg, init, s).value;
      var t := VisitVehicle(g, fs, cfg, vs[|vs| - 1], o.state).value;
      VisitSound(g, fs, cfg, vs[|vs| - 1], o.state);
      var out := o.vehicles + [t.vehicle];
      assert out[..|out| - 1] == o.vehicles;
      assert forall k :: 0 <= k < |init| ==> init[k] == vs[k] && out[k] == o.vehicles[k];
    }
  }

  /** One more turn of the injector's loop after a partial run. */
  function Extend<S(!new)>(g: Generator<S>, fs: seq<Catalog.Facility>, cfg: Config, prev: Result<Outcome<S>>, v: Vehicle)
    : Result<Outcome<S>>
    requires Valid(g)
  {
    match prev
    case Err(e) => Err(e)
    case Ok(o) =>
      match VisitVehicle(g, fs, cfg, v, o.state)
      case Err(e) => Err(e)
      case Ok(t) =>
        var out := o.vehicles + [t.vehicle];
        assert out[..|out| - 1] == o.vehicles;
        Ok(Outcome(out, o.injected + (if t.added then 1 else 0), t.state))
  }

  /** Continues a partial run over further vehicles, from the state the partial run ended in. */
  function Continue<S(!new)>(g: Generator<S>, fs: seq<Catalog.Facility>, cfg: Config, first: Result<Outcome<S>>, rest: seq<Vehicle>)
    : Result<Outcome<S>>
    requires Valid(g)
  {
    match first
    case Err(e) => Err(e)
    case Ok(o) =>
      match InjectAll(g, fs, cfg, rest, o.state)
      case Err(e) => Err(e)
      case Ok(o2) => Ok(Outcome(o.vehicles + o2.vehicles, o.injected + o2.injected, o2.state))
  }

  /** The last turn of the loop, taken by itself. */
  lemma InjectAllUnfold<S(!new)>(g: Generator<S>, fs: seq<Catalog.Facility>, cfg: Config, vs: seq<Vehicle>, s: S)
    requires Valid(g) && |vs| > 0
    ensures InjectAll(g, fs, cfg, vs, s) == Extend(g, fs, cfg, InjectAll(g, fs, cfg, vs[..|vs| - 1], s), vs[|vs| - 1])
  {
  }

  /** Continuing a successful partial run whose continuation succeeds joins the two. */
  lemma ContinueOk<S(!new)>(g: Generator<S>, fs: seq<Catalog.Facility>, cfg: Config, o: Outcome<S>, rest: seq<Vehicle>)
    requires Valid(g) && InjectAll(g, fs, cfg, rest, o.state).Ok?
    ensures var o2 := InjectAll(g, fs, cfg, rest, o.state).value;
            Continue(g, fs, cfg, Ok(o), rest) == Ok(Outcome(o.vehicles + o2.vehicles, o.injected + o2.injected, o2.state))
  {
  }

  /** One more successful turn appends the visited vehicle. */
  lemma ExtendOk<S(!new)>(g: Generator<S>, fs: seq<Catalog.Facility>, cfg: Config, o: Outcome<S>, v: Vehicle)
    requires Valid(g) && VisitVehicle(g, fs, cfg, v, o.state).Ok?
    ensures var t := VisitVehicle(g, fs, cfg, v, o.state).value;
            Extend(g, fs, cfg, Ok(o), v) == Ok(Outcome(o.vehicles + [t.vehicle], o.injected + (if t.added then 1 else 0), t.state))
  {
  }

  /** Continuing and then taking one more turn is continuing over one more vehicle. */
  lemma ContinueExtend<S(!new)>(g: Generator<S>, fs: seq<Catalog.Facility>, cfg: Config, first: Result<Outcome<S>>, rest: seq<Vehicle>, v: Vehicle)
    requires Valid(g)
    ensures Extend(g, fs, cfg, Continue(g, fs, cfg, first, rest), v) == Continue(g, fs, cfg, first, rest + [v])
  {
    if first.Ok? {
      var o := first.value;
      var rv := rest + [v];
      assert rv[..|rv| - 1] == rest && rv[|rv| - 1] == v;
      InjectAllUnfold(g, fs, cfg, rv, o.state);
      var inner := InjectAll(g, fs, cfg, rest, o.state);
      if inner.Ok? {
        var o2 := inner.value;
        ContinueOk(g, fs, cfg, o, rest);
        var mid := Outcome(o.vehicles + o2.vehicles, o.injected + o2.injected, o2.state);
        var t := VisitVehicle(g, fs, cfg, v, o2.state);
        if t.Ok? {
          var tv := t.value;
          ExtendOk(g, fs, cfg, mid, v);
          ExtendOk(g, fs, cfg, o2, v);
          ContinueOk(g, fs, cfg, o, rv);
          ConcatAssoc(o.vehicles, o2.vehicles, [tv.vehicle]);
        }
      }
    }
  }

  lemma ConcatAssoc(a: seq<Vehicle>, b: seq<Vehicle>, c: seq<Vehicle>)
    ensures a + (b + c) == (a + b) + c
  {
  }

  /** One shared generator: processing a + b is processing a, then b from the state a left behind. */
  lemma {:induction false} InjectAppend<S(!new)>(g: Generator<S>, fs: seq<Catalog.Facility>, cfg: Config, a: seq<Vehicle>, b: seq<Vehicle>, s: S)
    requires Valid(g)
    ensures InjectAll(g, fs, cfg, a + b, s) == Continue(g, fs, cfg, InjectAll(g, fs, cfg, a, s), b)
    decreases |b|
  {
    if |b| == 0 {
      assert a + b == a;
      match InjectAll(g, fs, cfg, a, s)
      case Err(e) =>
      case Ok(o) => assert o.vehicles + [] == o.vehicles;
    } else {
      var b' := b[..|b| - 1];
      var v := b[|b| - 1];
      assert (a + b)[..|a + b| - 1] == a + b';
      assert (a + b)[|a + b| - 1] == v;
      assert b' + [v] == b;
      InjectAppend(g, fs, cfg, a, b', s);
      ContinueExtend(g, fs, cfg, InjectAll(g, fs, cfg, a, s), b', v);
    }
  }

  /** A run's outcome with vehicle u written at position k. */
  function InsertAt<S>(r: Result<Outcome<S>>, k: nat, u: Vehicle): Result<Outcome<S>> {
    match r
    case Err(e) => Err(e)
    case Ok(o) => if k <= |o.vehicles| then Ok(o.(vehicles := o.vehicles[..k] + [u] + o.vehicles[k..])) else Ok(o)
  }

  /**
    Inserting a vehicle that already has a stop anywhere in the document changes
    nothing else: it is written back as it was, consumes no draw, and every other
    vehicle meets the same generator state as without it.
   */
  lemma SkipInsensitive<S(!new)>(g: Generator<S>, fs: seq<Catalog.Facility>, cfg: Config, a: seq<Vehicle>, u: Vehicle, b: seq<Vehicle>, s: S)
    requires Valid(g) && HasStop(u)
    ensures InjectAll(g, fs, cfg, a + [u] + b, s) == InsertAt(InjectAll(g, fs, cfg, a + b, s), |a|, u)
  {
    var au := a + [u];
    assert au[..|au| - 1] == a && au[|au| - 1] == u;
    InjectAllUnfold(g, fs, cfg, au, s);
    InjectAppend(g, fs, cfg, au, b, s);
    InjectAppend(g, fs, cfg, a, b, s);
    match InjectAll(g, fs, cfg, a, s)
    case Err(e) =>
    case Ok(o) =>
      ExtendOk(g, fs, cfg, o, u);
      match InjectAll(g, fs, cfg, b, o.state)
      case Err(e) =>
      case Ok(o2) =>
        var all := o.vehicles + o2.vehicles;
        assert all[..|a|] == o.vehicles;
        assert all[|a|..] == o2.vehicles;
        ConcatAssoc(o.vehicles, [u], o2.vehicles);
  }

  /** With rate >= 1 every vehicle without a stop gets one, since random() < 1. */
  lemma {:induction false} FullRateInjectsEveryEligible<S(!new)>(g: Generator<S>, fs: seq<Catalog.Facility>, cfg: Config, vs: seq<Vehicle>, s: S)
    requires Valid(g) && |fs| > 0 && cfg.durMin <= cfg.durMax && cfg.rate >= 1.0
    ensures InjectAll(g, fs, cfg, vs, s).Ok?
    ensures InjectAll(g, fs, cfg, vs, s).value.injected == CountEligible(vs)
    decreases |vs|
  {
    if |vs| > 0 {
      FullRateInjectsEveryEligible(g, fs, cfg, vs[..|vs| - 1], s);
    }
  }

  /** With rate < 0 no draw of random() is small enough: the document is written back unchanged. */
  lemma {:induction false} NegativeRateInjectsNothing<S(!new)>(g: Generator<S>, fs: seq<Catalog.Facility>, cfg: Config, vs: seq<Vehicle>, s: S)
    requires Valid(g) && cfg.rate < 0.0
    ensures InjectAll(g, fs, cfg, vs, s).Ok?
    ensures InjectAll(g, fs, cfg, vs, s).value.vehicles == vs
    ensures InjectAll(g, fs, cfg, vs, s).value.injected == 0
    decreases |vs|
  {
    if |vs| > 0 {
      NegativeRateInjectsNothing(g, fs, cfg, vs[..|vs| - 1], s);
      assert vs[..|vs| - 1] + [vs[|vs| - 1]] == vs;
    }
  }

  /** A document whose vehicles all carry a stop is written back unchanged, and the generator is not advanced. */
  lemma {:induction false} AllStoppedIsUntouched<S(!new)>(g: Generator<S>, fs: seq<Catalog.Facility>, cfg: Config, vs: seq<Vehicle>, s: S)
    requires Valid(g) && forall k :: 0 <= k < |vs| ==> HasStop(vs[k])
    ensures InjectAll(g, fs, cfg, vs, s) == Ok(Outcome(vs, 0, s))
    decreases |vs|
  {
    if |vs| > 0 {
      AllStoppedIsUntouched(g, fs, cfg, vs[..|vs| - 1], s);
      assert vs[..|vs| - 1] + [vs[|vs| - 1]] == vs;
    }
  }
}
