/**
 * `Air::Container`: the list of gas plains held by one map cell, changed in
 * place. Its invariant (the header's "temperature of everything should be
 * equal") is `Valid()`; every method is proved against a function of `AirSpec`.
 */
module Air {
  import opened AirSpec
  import opened General

  /**
   * One gas plain, owned through a `unique_ptr`. Its type never changes, so
   * its tag is a constant; the other fields are updated in place.
   */
  class Plain {
    const tag: TypeTag
    var weight: real
    var heatCapacity: real
    var transferCoef: real
    var temperature: real

    constructor (v: PlainValue)
      ensures Value() == v
    {
      tag := v.tag;
      weight, heatCapacity, transferCoef, temperature := v.weight, v.heatCapacity, v.transferCoef, v.temperature;
    }

    function Value(): PlainValue
      reads this
    {
      PlainValue(tag, weight, heatCapacity, transferCoef, temperature)
    }
  }

  /** The values held by a list of plain objects, in list order. */
  function Values(list: seq<Plain>): (r: seq<PlainValue>)
    reads list
    ensures |r| == |list|
  {
    seq(|list|, i requires 0 <= i < |list| reads list => list[i].Value())
  }

  /** No plain object occurs twice: each `unique_ptr` owns its own plain. */
  predicate Owned(list: seq<Plain>) {
    forall i, j :: 0 <= i < j < |list| ==> list[i] != list[j]
  }

  class Container {
    var airList: seq<Plain>

    function Contents(): seq<PlainValue>
      reads this, airList
    {
      Values(airList)
    }

    /** What holds between public calls, except equal temperatures. */
    ghost predicate WellFormed()
      reads this, airList
    {
      Owned(airList) && AllPositive(Contents()) && DistinctTags(Contents())
    }

    /** The class invariant: well formed and in thermal equilibrium. */
    ghost predicate Valid()
      reads this, airList
    {
      WellFormed() && Equilibrium(Contents())
    }

    /** `Container() = default`: no air. */
    constructor ()
      ensures Valid() && airList == []
    {
      airList := [];
    }

    /** The copy constructor: a clone of every plain, in order, each a fresh object. */
    constructor Copy(obj: Container)
      requires obj.Valid()
      ensures Valid()
      ensures |airList| == |obj.airList| && Contents() == obj.Contents()
      ensures forall i :: 0 <= i < |airList| ==> fresh(airList[i])
    {
      var list: seq<Plain> := [];
      var k := 0;
      while k < |obj.airList|
        invariant 0 <= k <= |obj.airList| && |list| == k
        invariant forall i :: 0 <= i < k ==> fresh(list[i]) && list[i].Value() == obj.airList[i].Value()
        invariant Owned(list)
      {
        var e := new Plain(obj.airList[k].Value());
        list := list + [e];
        k := k + 1;
      }
      airList := list;
      new;
      assert Contents() == obj.Contents();
    }

    /** The move constructor: takes over the source's plains and leaves it empty. */
    constructor Move(obj: Container)
      requires obj.Valid()
      modifies obj
      ensures Valid() && obj.Valid()
      ensures airList == old(obj.airList) && Contents() == old(obj.Contents())
      ensures obj.airList == []
    {
      airList := obj.airList;
      new;
      obj.airList := [];
    }

    /** `empty`: whether the container holds no air. */
    method Empty() returns (r: bool)
      ensures r <==> Contents() == []
    {
      r := airList == [];
    }

    /**
     * `erase`: removes the plain at position `i` and returns the position of
     * the plain that followed it. The remaining plains keep their order and
     * their (equal) temperatures.
     */
    method Erase(i: nat) returns (next: nat)
      requires Valid() && i < |airList|
      modifies this
      ensures Valid()
      ensures airList == old(airList[..i] + airList[i + 1..])
      ensures Contents() == old(Contents()[..i] + Contents()[i + 1..])
      ensures next == i && next <= |airList|
    {
      ghost var before := Contents();
      airList := airList[..i] + airList[i + 1..];
      assert forall k :: 0 <= k < |airList| ==> Contents()[k] == (before[..i] + before[i + 1..])[k];
      next := i;
    }

    /** The total weight and the weight-averaged transfer coefficient, by one pass over the list. */
    method GetHeatTransferAndTotalWeight() returns (totalWeight: real, transferCoef: real)
      requires WellFormed() && airList != []
      ensures totalWeight == TotalWeight(Contents()) && totalWeight > 0.0
      ensures transferCoef == TransferCoef(Contents())
    {
      var weight, sumHeatWeight := 0.0, 0.0;
      var i := 0;
      while i < |airList|
        invariant 0 <= i <= |airList|
        invariant weight == TotalWeight(Contents()[..i])
        invariant sumHeatWeight == SumHeatWeight(Contents()[..i])
      {
        assert Contents()[..i + 1][..i] == Contents()[..i];
        weight := weight + airList[i].weight;
        sumHeatWeight := sumHeatWeight + airList[i].weight * airList[i].transferCoef;
        i := i + 1;
      }
      assert Contents()[..i] == Contents();
      SumsPositive(Contents());
      totalWeight := weight;
      transferCoef := sumHeatWeight / weight;
    }

    /** The weight-averaged transfer coefficient Σ w·c / Σ w. */
    method GetHeatTransferCoef() returns (c: real)
      requires WellFormed() && airList != []
      ensures c == TransferCoef(Contents())
      ensures MinCoef(Contents()) <= c <= MaxCoef(Contents())
    {
      var totalWeight;
      totalWeight, c := GetHeatTransferAndTotalWeight();
      TransferCoefBetween(Contents());
    }

    /** The front plain's temperature, which by the invariant is every plain's temperature. */
    method GetTemperature() returns (t: Temperature)
      requires Valid() && airList != []
      ensures t.value == Contents()[0].temperature
      ensures AllAt(Contents(), t.value)
    {
      t := Temperature(airList[0].temperature);
    }

    /** The accumulating loop of `normalizeTemperature`: Σ w·hc·T and Σ w·hc. */
    method Totals() returns (totalEnergy: real, totalWC: real)
      ensures totalEnergy == TotalEnergy(Contents()) && totalWC == TotalWC(Contents())
    {
      totalEnergy, totalWC := 0.0, 0.0;
      var i := 0;
      while i < |airList|
        invariant 0 <= i <= |airList|
        invariant totalWC == TotalWC(Contents()[..i])
        invariant totalEnergy == TotalEnergy(Contents()[..i])
      {
        var air := airList[i];
        assert Contents()[..i + 1][..i] == Contents()[..i] && air.Value() == Contents()[i];
        totalWC := totalWC + air.weight * air.heatCapacity;
        totalEnergy := totalEnergy + air.weight * air.heatCapacity * air.temperature;
        i := i + 1;
      }
      assert Contents()[..i] == Contents();
    }

    /** `normalizeTemperature`: every plain set to the heat-capacity-weighted mean temperature. */
    method Normalize()
      requires WellFormed()
      modifies airList
      ensures WellFormed() && Equilibrium(Contents())
      ensures Contents() == Normalized(old(Contents()))
    {
      ghost var before := Contents();
      var totalEnergy, totalWC := Totals();
      if airList != [] {
        SumsPositive(before);
      }
      // With no plains both totals are 0; the source's quotient is then NaN and reaches no plain.
      var temp := if airList == [] then 0.0 else totalEnergy / totalWC;
      var i := 0;
      while i < |airList|
        invariant 0 <= i <= |airList|
        invariant forall k :: 0 <= k < i ==> airList[k].Value() == before[k].(temperature := temp)
        invariant forall k :: i <= k < |airList| ==> airList[k].Value() == before[k]
      {
        airList[i].temperature := temp;
        i := i + 1;
      }
      assert Contents() == Normalized(before) by {
        assert forall k :: 0 <= k < |airList| ==> Contents()[k] == WithTemperature(before, temp)[k];
      }
      NormalizeReachesEquilibrium(before);
    }

    /**
     * `updateTemperature`: hands each plain its share c_i·w_i / Σ w·c of
     * `heatAirTransfer` (`heatUp` is the plain's own update), then re-normalizes.
     */
    method UpdateTemperature(heatAirTransfer: real, heatUp: (PlainValue, real) -> real)
      requires Valid()
      modifies airList
      ensures Valid()
      ensures old(Contents()) == [] ==> Contents() == []
      ensures old(Contents()) != [] ==> Contents() == Normalized(Heated(old(Contents()), heatAirTransfer, heatUp))
    {
      if airList == [] {
        // The source's 0/0 quotients reach no plain: the call changes nothing.
        return;
      }
      var totalWeight, transferCoef := GetHeatTransferAndTotalWeight();
      ghost var before := Contents();
      var sumHeatWeight := transferCoef * totalWeight;
      CoefTimesWeight(before);
      assert sumHeatWeight == SumHeatWeight(before) > 0.0;
      ghost var ds := Deltas(before, heatAirTransfer);
      var i := 0;
      while i < |airList|
        invariant 0 <= i <= |airList|
        invariant forall k :: 0 <= k < i ==> airList[k].Value() == before[k].(temperature := heatUp(before[k], ds[k]))
        invariant forall k :: i <= k < |airList| ==> airList[k].Value() == before[k]
      {
        var air := airList[i];
        // c·w / Σ w·c for this plain
        var partTransfer := Share(air.Value(), sumHeatWeight);
        DeltaAt(before, heatAirTransfer, i);
        assert air.Value() == before[i] && partTransfer * heatAirTransfer == ds[i];
        air.temperature := heatUp(air.Value(), partTransfer * heatAirTransfer);
        i := i + 1;
      }
      assert Contents() == Heated(before, heatAirTransfer, heatUp) by {
        var heated := Heated(before, heatAirTransfer, heatUp);
        assert forall k :: 0 <= k < |airList| ==> Contents()[k] == heated[k];
      }
      HeatedKeepsInvariants(before, heatAirTransfer, heatUp);
      Normalize();
    }

    /**
     * `add`: merges `plain` into the plain of the same tag if there is one,
     * otherwise appends it; then re-normalizes.
     */
    method Add(plain: Plain, merge: (PlainValue, PlainValue) -> PlainValue)
      requires Valid() && plain !in airList
      requires Positive(plain.Value()) && MergeKeepsPositive(merge)
      modifies this, airList, plain
      ensures Valid()
      ensures Contents() == Normalized(Added(old(Contents()), old(plain.Value()), merge))
      ensures airList == old(airList) || airList == old(airList) + [plain]
      ensures airList == old(airList) ==> plain.Value() == old(plain.Value())
    {
      ghost var before := Contents();
      ghost var p := plain.Value();
      var merged := false;
      var i := 0;
      while i < |airList|
        invariant 0 <= i <= |airList|
        invariant forall k :: 0 <= k < i ==> airList[k].tag != p.tag
        invariant forall k :: 0 <= k < |airList| ==> airList[k].Value() == before[k]
        invariant plain.Value() == p && !merged
      {
        var it := airList[i];
        if it.tag == plain.tag {
          var m := merge(it.Value(), plain.Value());
          it.weight, it.heatCapacity, it.transferCoef, it.temperature := m.weight, m.heatCapacity, m.transferCoef, m.temperature;
          merged := true;
          break;
        }
        i := i + 1;
      }
      if !merged {
        airList := airList + [plain];
      }
      AddedMatches(before, p, merge, merged, i);
      AddKeepsInvariants(before, p, merge);
      Normalize();
    }

    /** Ties the list left by the merge-or-append loop of `Add` to `Added`. */
    lemma AddedMatches(before: seq<PlainValue>, p: PlainValue, merge: (PlainValue, PlainValue) -> PlainValue, merged: bool, i: nat)
      requires DistinctTags(before)
      requires merged ==> |airList| == |before| && i < |before| && before[i].tag == p.tag
      requires merged ==> forall k :: 0 <= k < i ==> before[k].tag != p.tag
      requires merged ==> airList[i].Value() == Merged(before[i], p, merge)
      requires merged ==> forall k :: 0 <= k < |before| && k != i ==> airList[k].Value() == before[k]
      requires !merged ==> |airList| == |before| + 1 && airList[|before|].Value() == p
      requires !merged ==> forall k :: 0 <= k < |before| ==> before[k].tag != p.tag && airList[k].Value() == before[k]
      ensures Contents() == Added(before, p, merge)
    {
      var added := Added(before, p, merge);
      if merged {
        assert FirstWithTag(before, p.tag) == i;
      }
      assert |Contents()| == |added|;
      assert forall k :: 0 <= k < |added| ==> Contents()[k] == added[k];
    }
  }

  /**
   * A copy is independent of its source: the copy's plains are fresh clones, so
   * heating the copy leaves every plain of the source as it was.
   */
  method CopyThenUpdate(src: Container, heatAirTransfer: real, heatUp: (PlainValue, real) -> real)
    returns (copy: Container)
    requires src.Valid()
    ensures copy.Valid() && src.Valid()
    ensures src.airList == old(src.airList) && src.Contents() == old(src.Contents())
    ensures src.Contents() != [] ==> copy.Contents() == Normalized(Heated(src.Contents(), heatAirTransfer, heatUp))
  {
    copy := new Container.Copy(src);
    copy.UpdateTemperature(heatAirTransfer, heatUp);
  }
}
