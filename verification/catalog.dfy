/**
  The facility catalog loader, `parse_parking_areas`, present in both the
  standalone injector and the scenario pipeline. A `<parkingArea>` element is its
  attribute map; the loader's two parallel lists `ids` / `weights` are kept as one
  sequence of pairs, which is exactly what `zip(items, weights)` walks later.
 */
module Catalog {
  import opened Common
  import Decimal

  type Attributes = map<string, string>

  datatype Facility = Facility(id: string, weight: nat)

  /** `element.get(key)`. */
  function Get(attrs: Attributes, key: string): Option<string> {
    if key in attrs then Some(attrs[key]) else None
  }

  /** Python truthiness of an optional attribute value: present and non-empty. */
  predicate Truthy(v: Option<string>) {
    v.Some? && v.value != ""
  }

  /** `pa.get("roadsideCapacity") or pa.get("capacity")`. */
  function CapacityText(attrs: Attributes): Option<string> {
    var roadside := Get(attrs, "roadsideCapacity");
    if Truthy(roadside) then roadside else Get(attrs, "capacity")
  }

  /** `int(cap) if cap and cap.isdigit() else 1`. */
  function WeightOf(attrs: Attributes): nat {
    var cap := CapacityText(attrs);
    if Truthy(cap) && Decimal.IsDigits(cap.value) then Decimal.DigitsValue(cap.value) else 1
  }

  /** The loader keeps an element only when `pa.get("id")` is truthy. */
  predicate HasId(attrs: Attributes) {
    Truthy(Get(attrs, "id"))
  }

  function ToFacility(attrs: Attributes): Facility
    requires HasId(attrs)
  {
    Facility(attrs["id"], WeightOf(attrs))
  }

  /** The loader's loop over `root.findall(".//parkingArea")`, in document order. */
  function Collect(pas: seq<Attributes>): (fs: seq<Facility>)
    ensures |fs| <= |pas|
    ensures forall f :: f in fs ==> f.id != ""
    ensures |fs| == 0 <==> forall i :: 0 <= i < |pas| ==> !HasId(pas[i])
    decreases |pas|
  {
    if |pas| == 0 then []
    else
      var init := Collect(pas[..|pas| - 1]);
      var last := pas[|pas| - 1];
      assert forall i :: 0 <= i < |pas| - 1 ==> pas[..|pas| - 1][i] == pas[i];
      if HasId(last) then init + [ToFacility(last)] else init
  }

  /** `parse_parking_areas`: the catalog, or an error when no element carries an id. */
  function ParseParkingAreas(pas: seq<Attributes>): (r: Result<seq<Facility>>)
    ensures r.Err? <==> forall i :: 0 <= i < |pas| ==> !HasId(pas[i])
    ensures r.Err? ==> r.error == NoParkingAreaElements
    ensures r.Ok? ==> |r.value| > 0 && r.value == Collect(pas)
  {
    var fs := Collect(pas);
    if |fs| == 0 then Err(NoParkingAreaElements) else Ok(fs)
  }

  /** The `ids` list. */
  function Ids(fs: seq<Facility>): (ids: seq<string>)
    ensures |ids| == |fs|
    ensures forall i :: 0 <= i < |fs| ==> ids[i] == fs[i].id
  {
    seq(|fs|, i requires 0 <= i < |fs| => fs[i].id)
  }

  /** The `weights` list. */
  function Weights(fs: seq<Facility>): (ws: seq<nat>)
    ensures |ws| == |fs|
    ensures forall i :: 0 <= i < |fs| ==> ws[i] == fs[i].weight
  {
    seq(|fs|, i requires 0 <= i < |fs| => fs[i].weight)
  }

  /** Document order is kept: loading a concatenation loads each part in turn. */
  lemma {:induction false} CollectAppend(a: seq<Attributes>, b: seq<Attributes>)
    ensures Collect(a + b) == Collect(a) + Collect(b)
    decreases |b|
  {
    if |b| == 0 {
      assert a + b == a;
    } else {
      var b' := b[..|b| - 1];
      assert (a + b)[..|a + b| - 1] == a + b';
      assert (a + b)[|a + b| - 1] == b[|b| - 1];
      CollectAppend(a, b');
    }
  }

  /** One element loads to its facility when it has an id, and to nothing otherwise. */
  lemma CollectSingle(pa: Attributes)
    ensures HasId(pa) ==> Collect([pa]) == [Facility(pa["id"], WeightOf(pa))]
    ensures !HasId(pa) ==> Collect([pa]) == []
  {
  }

  /** A facility is in the catalog exactly when some element with an id loads to it. */
  lemma {:induction false} CollectMembership(pas: seq<Attributes>, f: Facility)
    ensures f in Collect(pas) <==> exists i :: 0 <= i < |pas| && HasId(pas[i]) && ToFacility(pas[i]) == f
    decreases |pas|
  {
    if |pas| > 0 {
      var init := pas[..|pas| - 1];
      CollectMembership(init, f);
      assert forall i :: 0 <= i < |init| ==> init[i] == pas[i];
      if exists i :: 0 <= i < |pas| && HasId(pas[i]) && ToFacility(pas[i]) == f {
        var i :| 0 <= i < |pas| && HasId(pas[i]) && ToFacility(pas[i]) == f;
        if i < |init| {
          assert HasId(init[i]) && ToFacility(init[i]) == f;
        }
      }
    }
  }

  /**
    The weight is the number a digit string declares, leading zeros included
    (`int("007") == 7`): `roadsideCapacity` first, then `capacity`.
   */
  lemma WeightFromDeclaredCapacity(attrs: Attributes, t: string)
    ensures Get(attrs, "roadsideCapacity") == Some(t) && Decimal.IsDigits(t) ==>
              WeightOf(attrs) == Decimal.DigitsValue(t)
    ensures !Truthy(Get(attrs, "roadsideCapacity")) && Get(attrs, "capacity") == Some(t) && Decimal.IsDigits(t) ==>
              WeightOf(attrs) == Decimal.DigitsValue(t)
  {
  }

  /**
    The weight is 1 when no capacity is declared, when `roadsideCapacity` is
    present but not a digit string (it then shadows any numeric `capacity`), and
    when only `capacity` is declared and it is not a digit string ("abc", "-5", "3.5").
   */
  lemma WeightDefaultsToOne(attrs: Attributes)
    ensures !Truthy(Get(attrs, "roadsideCapacity")) && !Truthy(Get(attrs, "capacity")) ==> WeightOf(attrs) == 1
    ensures Truthy(Get(attrs, "roadsideCapacity")) && !Decimal.IsDigits(attrs["roadsideCapacity"]) ==> WeightOf(attrs) == 1
    ensures !Truthy(Get(attrs, "roadsideCapacity")) && Truthy(Get(attrs, "capacity")) && !Decimal.IsDigits(attrs["capacity"]) ==>
              WeightOf(attrs) == 1
  {
  }
}
