/** The launch overrides of a fleet request: instance types crossed with one subnet per zone. */
module OverrideMatrix {

  import opened Sequences
  import opened Wrappers

  const MAX_FLEET_OVERRIDES: nat := 60

  datatype Override = Override(typ: string, subnet: Option<string>, storageGiB: Option<int>)

  // ----- one subnet per availability zone

  /** Kept: its zone is unknown, or no earlier subnet is in its zone. */
  predicate FirstOfZone(subnets: seq<string>, az: map<string, string>, i: nat)
    requires i < |subnets|
  {
    subnets[i] in az ==> forall j :: 0 <= j < i && subnets[j] in az ==> az[subnets[j]] != az[subnets[i]]
  }

  /** The kept subnets among the first n, in order. */
  function Collapsed(subnets: seq<string>, az: map<string, string>, n: nat): seq<string>
    requires n <= |subnets|
  {
    if n == 0 then []
    else Collapsed(subnets, az, n - 1) + if FirstOfZone(subnets, az, n - 1) then [subnets[n - 1]] else []
  }

  /** `zones` is the outcome of the zone lookup; a failed lookup leaves the list alone. */
  method SubnetsOnePerAZ(subnets: seq<string>, zones: Option<map<string, string>>) returns (kept: seq<string>)
    ensures kept == if |subnets| <= 1 || zones.None? then subnets else Collapsed(subnets, zones.value, |subnets|)
  {
    if |subnets| <= 1 || zones.None? { return subnets; }
    var az := zones.value;
    var seen: set<string> := {};
    kept := [];
    for i := 0 to |subnets|
      invariant kept == Collapsed(subnets, az, i)
      invariant forall z :: z in seen <==> exists j :: 0 <= j < i && subnets[j] in az && az[subnets[j]] == z
    {
      var subnet := subnets[i];
      if subnet !in az {
        kept := kept + [subnet];
        continue;
      }
      if az[subnet] in seen { continue; }
      seen := seen + {az[subnet]};
      kept := kept + [subnet];
    }
  }

  /** A subnet is kept when its zone is unknown or no earlier one is in it; no other is. */
  lemma {:induction false} CollapsedMembers(subnets: seq<string>, az: map<string, string>, n: nat, s: string)
    requires n <= |subnets|
    ensures s in Collapsed(subnets, az, n) <==>
              exists i :: 0 <= i < n && subnets[i] == s
                          && (s in az ==> forall j :: 0 <= j < i && subnets[j] in az ==> az[subnets[j]] != az[s])
  {
    if n > 0 { CollapsedMembers(subnets, az, n - 1, s); }
  }

  /** The kept subnets come in the order they were given. */
  lemma {:induction false} CollapsedInOrder(subnets: seq<string>, az: map<string, string>, n: nat, p: nat, q: nat)
    requires n <= |subnets| && p < q < |Collapsed(subnets, az, n)|
    ensures exists i, j :: 0 <= i < j < n && subnets[i] == Collapsed(subnets, az, n)[p] && subnets[j] == Collapsed(subnets, az, n)[q]
  {
    var before := Collapsed(subnets, az, n - 1);
    if q < |before| {
      CollapsedInOrder(subnets, az, n - 1, p, q);
      var i, j :| 0 <= i < j < n - 1 && subnets[i] == before[p] && subnets[j] == before[q];
      assert subnets[i] == Collapsed(subnets, az, n)[p] && subnets[j] == Collapsed(subnets, az, n)[q];
    } else {
      CollapsedMembers(subnets, az, n - 1, before[p]);
      var i :| 0 <= i < n - 1 && subnets[i] == before[p];
      assert subnets[i] == Collapsed(subnets, az, n)[p] && subnets[n - 1] == Collapsed(subnets, az, n)[q];
    }
  }

  /** No two subnets are known to be in one zone. */
  ghost predicate OnePerZone(subnets: seq<string>, az: map<string, string>) {
    forall i, j :: 0 <= i < j < |subnets| && subnets[i] in az && subnets[j] in az ==> az[subnets[i]] != az[subnets[j]]
  }

  /** The zones a list of subnets reaches. */
  ghost function Zones(subnets: seq<string>, az: map<string, string>): set<string> {
    set s | s in subnets && s in az :: az[s]
  }

  lemma ZonesAppend(a: seq<string>, s: string, az: map<string, string>)
    ensures Zones(a + [s], az) == Zones(a, az) + if s in az then {az[s]} else {}
  {
    forall u | u in a + [s] ensures u in a || u == s {}
    assert s in a + [s];
    assert forall u :: u in a ==> u in a + [s];
  }

  /** The zone of s is none of those reached by a list that has one subnet per zone. */
  lemma OnePerZoneAppend(a: seq<string>, s: string, az: map<string, string>)
    requires OnePerZone(a, az) && (s in az ==> az[s] !in Zones(a, az))
    ensures OnePerZone(a + [s], az)
  {
    forall k | 0 <= k < |a| && a[k] in az && s in az ensures az[a[k]] != az[s] {
      assert az[a[k]] in Zones(a, az);
    }
  }

  /** Collapsing leaves one subnet per known zone, and loses no zone. */
  lemma {:induction false} CollapsedCovers(subnets: seq<string>, az: map<string, string>, n: nat)
    requires n <= |subnets|
    ensures OnePerZone(Collapsed(subnets, az, n), az)
    ensures Zones(Collapsed(subnets, az, n), az) == Zones(subnets[..n], az)
    ensures |Collapsed(subnets, az, n)| <= n
  {
    if n > 0 {
      CollapsedCovers(subnets, az, n - 1);
      var before, s := Collapsed(subnets, az, n - 1), subnets[n - 1];
      assert subnets[..n] == subnets[..n - 1] + [s];
      ZonesAppend(subnets[..n - 1], s, az);
      if FirstOfZone(subnets, az, n - 1) {
        ZonesAppend(before, s, az);
        OnePerZoneAppend(before, s, az);
      } else {
        var j :| 0 <= j < n - 1 && subnets[j] in az && az[subnets[j]] == az[s];
        assert subnets[j] in subnets[..n - 1];
      }
    }
  }

  // ----- the matrix

  function TypesPerSubnet(numTypes: int, numSubnets: int): (per: int)
    ensures numTypes > 0 && numSubnets > 0 ==> 1 <= per <= numTypes
    ensures numTypes <= 0 || numSubnets <= 0 ==> per == 0
  {
    if numSubnets <= 0 || numTypes <= 0 then 0
    else
      var per := MAX_FLEET_OVERRIDES / numSubnets;
      var per1 := if per < 1 then 1 else per;
      if per1 > numTypes then numTypes else per1
  }

  lemma QuotientFits(total: nat, n: nat)
    requires n > 0
    ensures n * (total / n) <= total < n * (total / n + 1)
  {
    assert total == n * (total / n) + total % n;
    assert n * (total / n + 1) == n * (total / n) + n;
  }

  lemma ProductMonotone(n: nat, a: int, b: int)
    requires a <= b
    ensures n * a <= n * b
  {
  }

  /** The total stays within the cap, or at one per subnet, and one more type each would exceed it. */
  lemma TypesPerSubnetFits(numTypes: int, numSubnets: int)
    requires numTypes > 0 && numSubnets > 0
    ensures var per := TypesPerSubnet(numTypes, numSubnets);
            && 1 <= per <= numTypes
            && numSubnets * per <= (if numSubnets <= 60 then 60 else numSubnets)
            && (per < numTypes ==> 60 < numSubnets * (per + 1))
  {
    var quotient, per := MAX_FLEET_OVERRIDES / numSubnets, TypesPerSubnet(numTypes, numSubnets);
    QuotientFits(MAX_FLEET_OVERRIDES, numSubnets);
    if quotient >= 1 {
      ProductMonotone(numSubnets, per, quotient);
    } else {
      assert per == 1;
      ProductMonotone(numSubnets, quotient + 1, per + 1);
    }
  }

  function MakeOverride(typ: string, subnet: string, storageGiB: int): Override {
    Override(typ, if subnet == "" then None else Some(subnet), if storageGiB > 0 then Some(storageGiB) else None)
  }

  function Line(types: seq<string>, subnet: string, storageGiB: int): seq<Override> {
    seq(|types|, i requires 0 <= i < |types| => MakeOverride(types[i], subnet, storageGiB))
  }

  function Matrix(types: seq<string>, subnets: seq<string>, storageGiB: int): seq<Override> {
    if subnets == [] then []
    else Matrix(types, subnets[..|subnets| - 1], storageGiB) + Line(types, subnets[|subnets| - 1], storageGiB)
  }

  /** An empty subnet list stands for one unnamed subnet. */
  method BuildOverrides(types: seq<string>, subnets0: seq<string>, storageGiB: int) returns (overrides: seq<Override>)
    ensures var subnets := if subnets0 == [] then [""] else subnets0;
            overrides == Matrix(types[..TypesPerSubnet(|types|, |subnets|)], subnets, storageGiB)
  {
    var subnets := if |subnets0| == 0 then [""] else subnets0;
    var per := TypesPerSubnet(|types|, |subnets|);
    overrides := [];
    for s := 0 to |subnets|
      invariant overrides == Matrix(types[..per], subnets[..s], storageGiB)
    {
      ghost var before := overrides;
      for i := 0 to per
        invariant overrides == before + Line(types[..i], subnets[s], storageGiB)
      {
        overrides := overrides + [MakeOverride(types[i], subnets[s], storageGiB)];
      }
      assert subnets[..s + 1][..s] == subnets[..s];
    }
    assert subnets[..|subnets|] == subnets;
  }

  lemma {:induction false} MatrixMembers(types: seq<string>, subnets: seq<string>, storageGiB: int)
    ensures forall o :: o in Matrix(types, subnets, storageGiB) <==>
              exists t, s :: t in types && s in subnets && o == MakeOverride(t, s, storageGiB)
    ensures forall t, s :: MakeOverride(t, s, storageGiB)
                           == Override(t, if s == "" then None else Some(s), if storageGiB > 0 then Some(storageGiB) else None)
  {
    if subnets != [] {
      var n := |subnets| - 1;
      var line := Line(types, subnets[n], storageGiB);
      MatrixMembers(types, subnets[..n], storageGiB);
      assert subnets == subnets[..n] + [subnets[n]];
      forall o ensures o in line <==> exists t :: t in types && o == MakeOverride(t, subnets[n], storageGiB) {
        if t :| t in types && o == MakeOverride(t, subnets[n], storageGiB) {
          var i :| 0 <= i < |types| && types[i] == t;
          assert line[i] == o;
        }
      }
    }
  }

  /** The pool an override asks for: EC2 tells pools apart by type and zone. */
  ghost predicate SamePool(a: Override, b: Override, az: map<string, string>) {
    && a.typ == b.typ
    && a.subnet.Some? && b.subnet.Some? && a.subnet.value in az && b.subnet.value in az
    && az[a.subnet.value] == az[b.subnet.value]
  }

  lemma {:induction false} MatrixNoRepeat(types: seq<string>, subnets: seq<string>, storageGiB: int, az: map<string, string>, p: nat, q: nat)
    requires Distinct(types) && OnePerZone(subnets, az) && "" !in subnets
    requires p < q < |Matrix(types, subnets, storageGiB)|
    ensures var m := Matrix(types, subnets, storageGiB); !SamePool(m[p], m[q], az)
  {
    var n := |subnets| - 1;
    var head := Matrix(types, subnets[..n], storageGiB);
    assert subnets == subnets[..n] + [subnets[n]];
    if q < |head| {
      MatrixNoRepeat(types, subnets[..n], storageGiB, az, p, q);
    } else if p < |head| {
      MatrixMembers(types, subnets[..n], storageGiB);
      assert head[p] in head;
    }
  }

  ghost function OverrideZones(overrides: seq<Override>, az: map<string, string>): set<string> {
    set o | o in overrides && o.subnet.Some? && o.subnet.value in az :: az[o.subnet.value]
  }

  lemma MatrixZones(types: seq<string>, subnets: seq<string>, storageGiB: int, az: map<string, string>)
    requires types != [] && "" !in subnets
    ensures OverrideZones(Matrix(types, subnets, storageGiB), az) == Zones(subnets, az)
  {
    var m := Matrix(types, subnets, storageGiB);
    MatrixMembers(types, subnets, storageGiB);
    forall z | z in OverrideZones(m, az) ensures z in Zones(subnets, az) {
      var o :| o in m && o.subnet.Some? && o.subnet.value in az && az[o.subnet.value] == z;
      var t, s :| t in types && s in subnets && o == MakeOverride(t, s, storageGiB);
    }
    forall z | z in Zones(subnets, az) ensures z in OverrideZones(m, az) {
      var s :| s in subnets && s in az && az[s] == z;
      assert types[0] in types && MakeOverride(types[0], s, storageGiB) in m;
    }
  }

  /**
   For distinct types and named subnets: no two overrides are known to ask for the same
   (type, zone) pool, the known zones asked for are exactly those of the configured subnets,
   and the overrides number at most the cap, or one per kept subnet when there are more.
   */
  lemma FleetMatrix(types: seq<string>, subnets: seq<string>, az: map<string, string>, storageGiB: int, kept: seq<string>, overrides: seq<Override>)
    requires types != [] && Distinct(types) && subnets != [] && "" !in subnets
    requires kept == if |subnets| <= 1 then subnets else Collapsed(subnets, az, |subnets|)
    requires overrides == Matrix(types[..TypesPerSubnet(|types|, |kept|)], kept, storageGiB)
    ensures forall p, q :: 0 <= p < q < |overrides| && overrides[p].typ == overrides[q].typ ==>
              var a, b := overrides[p].subnet, overrides[q].subnet;
              !(a.Some? && b.Some? && a.value in az && b.value in az && az[a.value] == az[b.value])
    ensures forall s :: s in subnets && s in az ==>
              exists o :: o in overrides && o.subnet.Some? && o.subnet.value in az && az[o.subnet.value] == az[s]
    ensures forall o :: o in overrides && o.subnet.Some? && o.subnet.value in az ==>
              exists s :: s in subnets && s in az && az[s] == az[o.subnet.value]
    ensures |overrides| <= (if |kept| <= 60 then 60 else |kept|)
    ensures |kept| <= |subnets|
  {
    KeptIsOnePerZone(subnets, az, kept);
    var used := types[..TypesPerSubnet(|types|, |kept|)];
    MatrixZones(used, kept, storageGiB, az);
    MatrixAllDiffer(used, kept, storageGiB, az);
    MatrixBounded(types, kept, storageGiB);
    assert OverrideZones(overrides, az) == Zones(subnets, az);
    forall s | s in subnets && s in az
      ensures exists o :: o in overrides && o.subnet.Some? && o.subnet.value in az && az[o.subnet.value] == az[s]
    {
      assert az[s] in OverrideZones(overrides, az);
    }
    forall o | o in overrides && o.subnet.Some? && o.subnet.value in az
      ensures exists s :: s in subnets && s in az && az[s] == az[o.subnet.value]
    {
      assert az[o.subnet.value] in Zones(subnets, az);
    }
    forall p, q | 0 <= p < q < |overrides| ensures !SamePool(overrides[p], overrides[q], az) {}
  }

  lemma MatrixAllDiffer(types: seq<string>, subnets: seq<string>, storageGiB: int, az: map<string, string>)
    requires Distinct(types) && OnePerZone(subnets, az) && "" !in subnets
    ensures var m := Matrix(types, subnets, storageGiB);
            forall p, q :: 0 <= p < q < |m| ==> !SamePool(m[p], m[q], az)
  {
    var m := Matrix(types, subnets, storageGiB);
    forall p, q | 0 <= p < q < |m| ensures !SamePool(m[p], m[q], az) {
      MatrixNoRepeat(types, subnets, storageGiB, az, p, q);
    }
  }

  function Cap(numSubnets: nat): nat {
    if numSubnets <= MAX_FLEET_OVERRIDES then MAX_FLEET_OVERRIDES else numSubnets
  }

  lemma MatrixBounded(types: seq<string>, subnets: seq<string>, storageGiB: int)
    requires types != [] && subnets != []
    ensures |Matrix(types[..TypesPerSubnet(|types|, |subnets|)], subnets, storageGiB)| <= Cap(|subnets|)
  {
    var per := TypesPerSubnet(|types|, |subnets|);
    TypesPerSubnetFits(|types|, |subnets|);
    MatrixSize(types[..per], subnets, storageGiB);
    assert per * |subnets| == |subnets| * per;
  }

  lemma KeptIsOnePerZone(subnets: seq<string>, az: map<string, string>, kept: seq<string>)
    requires subnets != [] && "" !in subnets
    requires kept == if |subnets| <= 1 then subnets else Collapsed(subnets, az, |subnets|)
    ensures OnePerZone(kept, az) && Zones(kept, az) == Zones(subnets, az)
    ensures "" !in kept && kept != [] && |kept| <= |subnets|
  {
    CollapsedCovers(subnets, az, |subnets|);
    assert subnets[..|subnets|] == subnets;
    KeptFrom(subnets, az, |subnets|);
  }

  lemma {:induction false} MatrixSize(types: seq<string>, subnets: seq<string>, storageGiB: int)
    ensures |Matrix(types, subnets, storageGiB)| == |types| * |subnets|
  {
    if subnets != [] {
      var n := |subnets| - 1;
      MatrixSize(types, subnets[..n], storageGiB);
      assert |types| * |subnets| == |types| * n + |types|;
    }
  }

  /** Subnet by subnet, each with the types in the order given. */
  lemma {:induction false} MatrixAt(types: seq<string>, subnets: seq<string>, storageGiB: int, s: nat, i: nat)
    requires s < |subnets| && i < |types|
    ensures |types| * s + i < |Matrix(types, subnets, storageGiB)|
    ensures Matrix(types, subnets, storageGiB)[|types| * s + i]
            == Override(types[i], if subnets[s] == "" then None else Some(subnets[s]), if storageGiB > 0 then Some(storageGiB) else None)
  {
    var n := |subnets| - 1;
    MatrixSize(types, subnets[..n], storageGiB);
    if s < n {
      MatrixAt(types, subnets[..n], storageGiB, s, i);
    }
  }

  lemma {:induction false} KeptFrom(subnets: seq<string>, az: map<string, string>, n: nat)
    requires n <= |subnets|
    ensures forall s :: s in Collapsed(subnets, az, n) ==> s in subnets
    ensures n > 0 ==> Collapsed(subnets, az, n) != []
  {
    if n > 0 { KeptFrom(subnets, az, n - 1); }
  }
}
