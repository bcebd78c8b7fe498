/**
 * The bookkeeping the two pipeline files do around the Compute Engine API:
 * grouping the aggregated instance list by zone (`list_all_instances`),
 * flattening it into (name, external IP) pairs (`get_running_info`),
 * drawing a machine name (`gen_name`) and building the disk and machine
 * type paths of an instance (`create_instance`).  The API calls themselves
 * are inputs: the aggregated list arrives as the sequence the pager yields.
 */
module Compute {
  import opened Wrappers
  import opened Text

  datatype AccessConfig = AccessConfig(natIP: string)

  datatype NetworkInterface = NetworkInterface(accessConfigs: seq<AccessConfig>)

  datatype Instance = Instance(name: string, networkInterfaces: seq<NetworkInterface>)

  /**
   * A zone paired with its instances.  The aggregated list is a sequence of
   * these, and so is a Python dict from zone to instances, in insertion
   * order.
   */
  type Zones = seq<(string, seq<Instance>)>

  /** (instance name, external NAT IP), the tuples `get_running_info` returns. */
  type Endpoint = (string, string)

  // ---------------------------------------------------------------------
  // A dict keyed by zone

  /** `d[zone]` as a lookup: the first entry with that key. */
  function Lookup(d: Zones, zone: string): Option<seq<Instance>>
  {
    if d == [] then None else if d[0].0 == zone then Some(d[0].1) else Lookup(d[1..], zone)
  }

  predicate DistinctKeys(d: Zones)
  {
    forall i, j :: 0 <= i < j < |d| ==> d[i].0 != d[j].0
  }

  /** `d[zone] = instances`: an existing key keeps its place, a new one goes last. */
  function Put(d: Zones, zone: string, instances: seq<Instance>): (r: Zones)
    ensures Lookup(r, zone) == Some(instances)
    ensures forall z :: z != zone ==> Lookup(r, z) == Lookup(d, z)
    ensures Lookup(d, zone).None? ==> r == d + [(zone, instances)]
    ensures Lookup(d, zone).Some? ==>
      && |r| == |d|
      && forall i :: 0 <= i < |d| ==> r[i].0 == d[i].0 && (d[i].0 != zone ==> r[i] == d[i])
    ensures DistinctKeys(d) ==> DistinctKeys(r)
  {
    if d == [] then [(zone, instances)]
    else if d[0].0 == zone then [(zone, instances)] + d[1..]
    else
      var rest := Put(d[1..], zone, instances);
      assert DistinctKeys(d) ==> forall k :: 0 <= k < |rest| ==> rest[k].0 != d[0].0 by {
        if DistinctKeys(d) {
          forall k | 0 <= k < |rest| ensures rest[k].0 != d[0].0 {
            LookupKey(rest, rest[k].0);
            LookupKey(d[1..], d[0].0);
          }
        }
      }
      [d[0]] + rest
  }

  /** A key can be looked up exactly when some entry carries it. */
  lemma {:induction false} LookupKey(d: Zones, zone: string)
    ensures Lookup(d, zone).Some? <==> exists i :: 0 <= i < |d| && d[i].0 == zone
    decreases |d|
  {
    if d != [] {
      LookupKey(d[1..], zone);
      assert forall i :: 1 <= i < |d| ==> d[1..][i - 1] == d[i];
      if exists i :: 0 <= i < |d| && d[i].0 == zone {
        var i :| 0 <= i < |d| && d[i].0 == zone;
        if i > 0 {
          assert d[1..][i - 1] == d[i];
        }
      }
    }
  }

  // ---------------------------------------------------------------------
  // list_all_instances

  /** The zones with a non-empty instance list, as the loop's dict ends up. */
  function NonEmptyZones(agg: Zones): Zones
  {
    if agg == [] then []
    else
      var d := NonEmptyZones(agg[..|agg| - 1]);
      var (zone, instances) := agg[|agg| - 1];
      if instances != [] then Put(d, zone, instances) else d
  }

  /** `list_all_instances`: `all_instances[zone] = response.instances` for every non-empty response. */
  method ListAllInstances(agg: Zones) returns (all: Zones)
    ensures all == NonEmptyZones(agg)
  {
    all := [];
    for i := 0 to |agg|
      invariant all == NonEmptyZones(agg[..i])
    {
      var (zone, instances) := agg[i];
      if instances != [] {
        all := Put(all, zone, instances);
      }
      assert agg[..i + 1][..i] == agg[..i];
    }
    assert agg[..|agg|] == agg;
  }

  /** Exactly the zones that had a non-empty list are keys, each once, and each maps to a non-empty list. */
  lemma {:induction false} NonEmptyZonesKeys(agg: Zones, zone: string)
    ensures DistinctKeys(NonEmptyZones(agg))
    ensures Lookup(NonEmptyZones(agg), zone).Some? <==> ListedNonEmpty(agg, zone)
    ensures Lookup(NonEmptyZones(agg), zone).Some? ==> Lookup(NonEmptyZones(agg), zone).value != []
    decreases |agg|
  {
    if agg != [] {
      var n := |agg| - 1;
      NonEmptyZonesKeys(agg[..n], zone);
      ListedSnoc(agg, zone);
    }
  }

  /** Some entry of the aggregated list names `zone` with at least one instance. */
  predicate ListedNonEmpty(agg: Zones, zone: string)
  {
    exists i :: 0 <= i < |agg| && agg[i].0 == zone && agg[i].1 != []
  }

  lemma ListedSnoc(agg: Zones, zone: string)
    requires agg != []
    ensures ListedNonEmpty(agg, zone) <==>
      ListedNonEmpty(agg[..|agg| - 1], zone) || (agg[|agg| - 1].0 == zone && agg[|agg| - 1].1 != [])
  {
    var n := |agg| - 1;
    var init := agg[..n];
    if ListedNonEmpty(agg, zone) {
      var i :| 0 <= i < |agg| && agg[i].0 == zone && agg[i].1 != [];
      if i < n {
        assert init[i] == agg[i];
      }
    }
    if ListedNonEmpty(init, zone) {
      var i :| 0 <= i < n && init[i].0 == zone && init[i].1 != [];
      assert agg[i] == init[i];
    }
  }

  /**
   * A zone maps to the instances of its last non-empty occurrence: later
   * responses for the same zone either overwrite it or are skipped.
   */
  lemma {:induction false} NonEmptyZonesLastOccurrence(agg: Zones, i: nat)
    requires i < |agg| && agg[i].1 != []
    requires forall j :: i < j < |agg| && agg[j].0 == agg[i].0 ==> agg[j].1 == []
    ensures Lookup(NonEmptyZones(agg), agg[i].0) == Some(agg[i].1)
    decreases |agg|
  {
    var n := |agg| - 1;
    var init := agg[..n];
    if i < n {
      assert init[i] == agg[i];
      assert forall j :: i < j < n ==> init[j] == agg[j];
      NonEmptyZonesLastOccurrence(init, i);
    }
  }

  /** When the API names each zone once, every non-empty zone maps to its own instances. */
  lemma NonEmptyZonesOwnInstances(agg: Zones, i: nat)
    requires DistinctKeys(agg)
    requires i < |agg| && agg[i].1 != []
    ensures Lookup(NonEmptyZones(agg), agg[i].0) == Some(agg[i].1)
  {
    NonEmptyZonesLastOccurrence(agg, i);
  }

  // ---------------------------------------------------------------------
  // get_running_info

  /** `j.network_interfaces[0].access_configs[0]` exists (otherwise IndexError). */
  predicate Reachable(inst: Instance)
  {
    |inst.networkInterfaces| > 0 && |inst.networkInterfaces[0].accessConfigs| > 0
  }

  function NatIP(inst: Instance): string
    requires Reachable(inst)
  {
    inst.networkInterfaces[0].accessConfigs[0].natIP
  }

  predicate AllReachable(d: Zones)
  {
    forall i, j :: 0 <= i < |d| && 0 <= j < |d[i].1| ==> Reachable(d[i].1[j])
  }

  /** The pairs of one zone's instances, in order. */
  function ZoneEndpoints(instances: seq<Instance>): (r: seq<Endpoint>)
    requires forall j :: 0 <= j < |instances| ==> Reachable(instances[j])
    ensures |r| == |instances|
    ensures forall j :: 0 <= j < |r| ==> r[j] == (instances[j].name, NatIP(instances[j]))
  {
    if instances == [] then []
    else ZoneEndpoints(instances[..|instances| - 1]) + [(instances[|instances| - 1].name, NatIP(instances[|instances| - 1]))]
  }

  /** The pairs of every zone, zone by zone. */
  function Flatten(d: Zones): seq<Endpoint>
    requires AllReachable(d)
  {
    if d == [] then []
    else
      var last := d[|d| - 1];
      assert forall j :: 0 <= j < |last.1| ==> Reachable(last.1[j]) by {
        assert forall j :: 0 <= j < |last.1| ==> d[|d| - 1].1[j] == last.1[j];
      }
      Flatten(d[..|d| - 1]) + ZoneEndpoints(last.1)
  }

  /** Number of instances over all zones. */
  function Total(d: Zones): nat
  {
    if d == [] then 0 else Total(d[..|d| - 1]) + |d[|d| - 1].1|
  }

  /** `get_running_info`: None where Python raises (no project_id setting, or an instance without external NAT). */
  function RunningInfo(settings: map<string, string>, agg: Zones): Option<seq<Endpoint>>
  {
    if "project_id" !in settings then None
    else
      var d := NonEmptyZones(agg);
      if AllReachable(d) then Some(Flatten(d)) else None
  }

  method GetRunningInfo(settings: map<string, string>, agg: Zones) returns (up: Option<seq<Endpoint>>)
    ensures up == RunningInfo(settings, agg)
  {
    if "project_id" !in settings {
      return None;
    }
    var instances := ListAllInstances(agg);
    var acc: seq<Endpoint> := [];
    for i := 0 to |instances|
      invariant AllReachable(instances[..i])
      invariant acc == Flatten(instances[..i])
    {
      var list := instances[i].1;
      var before := acc;
      for j := 0 to |list|
        invariant forall k :: 0 <= k < j ==> Reachable(list[k])
        invariant acc == before + ZoneEndpoints(list[..j])
      {
        var inst := list[j];
        if !Reachable(inst) {
          return None;
        }
        EndpointsSnoc(list, j);
        AppendAssoc(before, ZoneEndpoints(list[..j]), [(inst.name, NatIP(inst))]);
        acc := acc + [(inst.name, NatIP(inst))];
      }
      assert list[..|list|] == list;
      FlattenSnoc(instances, i);
    }
    assert instances[..|instances|] == instances;
    up := Some(acc);
  }

  /** One more instance adds its pair at the end. */
  lemma EndpointsSnoc(list: seq<Instance>, j: nat)
    requires j < |list| && forall k :: 0 <= k <= j ==> Reachable(list[k])
    ensures ZoneEndpoints(list[..j + 1]) == ZoneEndpoints(list[..j]) + [(list[j].name, NatIP(list[j]))]
  {
    assert list[..j + 1][..j] == list[..j];
  }

  /** One more zone adds its pairs at the end. */
  lemma FlattenSnoc(d: Zones, i: nat)
    requires i < |d| && AllReachable(d[..i])
    requires forall k :: 0 <= k < |d[i].1| ==> Reachable(d[i].1[k])
    ensures AllReachable(d[..i + 1])
    ensures Flatten(d[..i + 1]) == Flatten(d[..i]) + ZoneEndpoints(d[i].1)
  {
    assert d[..i + 1][..i] == d[..i];
    assert d[..i + 1][i] == d[i];
  }

  lemma {:induction false} FlattenLength(d: Zones)
    requires AllReachable(d)
    ensures |Flatten(d)| == Total(d)
    decreases |d|
  {
    if d != [] {
      FlattenLength(d[..|d| - 1]);
    }
  }

  /** One pair per instance: the list is as long as the instance count of the dict. */
  lemma RunningInfoLength(settings: map<string, string>, agg: Zones)
    requires RunningInfo(settings, agg).Some?
    ensures |RunningInfo(settings, agg).value| == Total(NonEmptyZones(agg))
  {
    FlattenLength(NonEmptyZones(agg));
  }

  /**
   * When the API names each zone once and every instance has an external
   * NAT, the pairs are those of the aggregated list itself, in its order:
   * empty zones contribute nothing either way.
   */
  lemma RunningInfoInListOrder(settings: map<string, string>, agg: Zones)
    requires "project_id" in settings
    requires DistinctKeys(agg) && AllReachable(agg)
    ensures RunningInfo(settings, agg) == Some(Flatten(agg))
    ensures |Flatten(agg)| == Total(agg)
  {
    FlattenLength(agg);
    FlattenNonEmptyZones(agg);
  }

  /** With each zone listed once, dropping the empty zones changes neither reachability nor the pairs. */
  lemma {:induction false} FlattenNonEmptyZones(agg: Zones)
    requires DistinctKeys(agg) && AllReachable(agg)
    ensures AllReachable(NonEmptyZones(agg)) && Flatten(NonEmptyZones(agg)) == Flatten(agg)
    decreases |agg|
  {
    if agg != [] {
      var n := |agg| - 1;
      var init := agg[..n];
      assert DistinctKeys(init);
      assert AllReachable(init) by {
        assert forall i :: 0 <= i < n ==> init[i] == agg[i];
      }
      FlattenNonEmptyZones(init);
      var d := NonEmptyZones(init);
      var zone, list := agg[n].0, agg[n].1;
      NonEmptyZonesKeys(init, zone);
      LastZoneNew(agg);
      assert agg[..n + 1] == agg;
      FlattenSnoc(agg, n);
      if list != [] {
        assert NonEmptyZones(agg) == d + [(zone, list)];
        FlattenAppend(d, zone, list);
      } else {
        assert NonEmptyZones(agg) == d;
      }
    }
  }

  /** With each zone listed once, the last zone is not listed before. */
  lemma LastZoneNew(agg: Zones)
    requires DistinctKeys(agg) && agg != []
    ensures !ListedNonEmpty(agg[..|agg| - 1], agg[|agg| - 1].0)
  {
  }

  lemma FlattenAppend(d: Zones, zone: string, list: seq<Instance>)
    requires AllReachable(d) && forall k :: 0 <= k < |list| ==> Reachable(list[k])
    ensures AllReachable(d + [(zone, list)])
    ensures Flatten(d + [(zone, list)]) == Flatten(d) + ZoneEndpoints(list)
  {
    assert (d + [(zone, list)])[..|d|] == d;
  }

  // ---------------------------------------------------------------------
  // gen_name

  /** `string.ascii_lowercase`. */
  const Letters: string := seq(26, k requires 0 <= k < 26 => ('a' as int + k) as char)

  /** The index `random.choice(letters)` picks. */
  type LetterIndex = k: int | 0 <= k < 26

  /**
   * `''.join(random.choice(letters) for i in range(16))`, the `round`-th
   * time it is evaluated; `pick(n)` is the index of the n-th choice.
   */
  function Candidate(pick: nat -> LetterIndex, round: nat): (name: string)
    ensures |name| == 16
    ensures forall k :: 0 <= k < |name| ==> 'a' <= name[k] <= 'z'
  {
    seq(16, k requires 0 <= k < 16 => Letters[pick(16 * round + k)])
  }

  /** The names of running instances: the first component of each pair. */
  function Names(running: seq<Endpoint>): (names: seq<string>)
    ensures |names| == |running|
    ensures forall k :: 0 <= k < |running| ==> names[k] == running[k].0
    ensures forall n :: n in names <==> exists k :: 0 <= k < |running| && running[k].0 == n
  {
    seq(|running|, k requires 0 <= k < |running| => running[k].0)
  }

  /**
   * The retry loop `while name not in names: name = <new candidate>`, cut
   * off after `fuel` redraws.  It stops only on a name that IS taken: a
   * name that starts taken is kept, and a free one is replaced until a
   * draw collides.
   */
  method Redraw(first: string, names: seq<string>, pick: nat -> LetterIndex, fuel: nat) returns (name: string)
    ensures first in names ==> name == first
    ensures name !in names ==> first !in names && name == (if fuel == 0 then first else Candidate(pick, fuel))
    ensures name !in names ==> forall r :: 1 <= r <= fuel ==> Candidate(pick, r) !in names
    ensures name in names && first !in names ==>
      exists r :: 1 <= r <= fuel && name == Candidate(pick, r)
                  && forall r' :: 1 <= r' < r ==> Candidate(pick, r') !in names
  {
    name := first;
    var round := 1;
    while name !in names && round <= fuel
      invariant 1 <= round <= fuel + 1
      invariant round == 1 ==> name == first
      invariant round > 1 ==> first !in names && name == Candidate(pick, round - 1)
      invariant forall r :: 1 <= r < round - 1 ==> Candidate(pick, r) !in names
    {
      name := Candidate(pick, round);
      round := round + 1;
    }
    if name in names && first !in names {
      assert name == Candidate(pick, round - 1);
    }
  }

  /**
   * `gen_name`: the first candidate is drawn, then `get_running_info`
   * runs; when it raises (no `project_id` setting, or an instance without
   * an interface or access config) gen_name raises too (None).  Otherwise
   * the first candidate comes back whether or not a running instance
   * already has that name: the retry loop is entered only with a taken
   * name, which it keeps.
   */
  method GenName(settings: map<string, string>, agg: Zones, pick: nat -> LetterIndex, fuel: nat)
    returns (name: Option<string>)
    ensures name.Some? <==> RunningInfo(settings, agg).Some?
    ensures name.Some? ==> name.value == Candidate(pick, 0)
    ensures name.Some? ==> |name.value| == 16 && forall k :: 0 <= k < 16 ==> 'a' <= name.value[k] <= 'z'
    ensures name.Some? && Candidate(pick, 0) in Names(RunningInfo(settings, agg).value) ==>
      name.value in Names(RunningInfo(settings, agg).value)
  {
    var first := Candidate(pick, 0);
    var up := GetRunningInfo(settings, agg);
    if up.None? {
      return None;
    }
    var running := up.value;
    var names: seq<string> := [];
    for i := 0 to |running|
      invariant names == Names(running[..i])
    {
      names := names + [running[i].0];
    }
    assert running[..|running|] == running;
    if first in names {
      first := Redraw(first, names, pick, fuel);
    }
    name := Some(first);
  }

  // ---------------------------------------------------------------------
  // Resource paths of create_instance

  function DiskTypePath(zone: string, diskType: string): string
  {
    "zones/" + zone + "/diskTypes/" + diskType
  }

  function MachineTypePath(zone: string, machineType: string): string
  {
    "zones/" + zone + "/machineTypes/" + machineType
  }

  /** Both paths are the '/'-join of four segments, which split back out. */
  lemma ResourcePathSegments(zone: string, name: string)
    requires '/' !in zone && '/' !in name
    ensures Split(DiskTypePath(zone, name), '/') == ["zones", zone, "diskTypes", name]
    ensures Split(MachineTypePath(zone, name), '/') == ["zones", zone, "machineTypes", name]
  {
    PathShape(zone, name);
    SplitFour("zones", zone, "diskTypes", name, DiskTypePath(zone, name));
    SplitFour("zones", zone, "machineTypes", name, MachineTypePath(zone, name));
  }

  lemma PathShape(zone: string, name: string)
    ensures DiskTypePath(zone, name) == "zones" + ['/'] + zone + ['/'] + "diskTypes" + ['/'] + name
    ensures MachineTypePath(zone, name) == "zones" + ['/'] + zone + ['/'] + "machineTypes" + ['/'] + name
    ensures '/' !in "zones" && '/' !in "diskTypes" && '/' !in "machineTypes"
  {
  }

  lemma SplitFour(a: string, b: string, c: string, d: string, s: string)
    requires '/' !in a && '/' !in b && '/' !in c && '/' !in d
    requires s == a + ['/'] + b + ['/'] + c + ['/'] + d
    ensures Split(s, '/') == [a, b, c, d]
  {
    var cd := c + ['/'] + d;
    var bcd := b + ['/'] + cd;
    Regroup4(a, b, c, d, '/');
    SplitConcatFree(a, bcd, '/', s);
    SplitConcatFree(b, cd, '/', bcd);
    SplitConcatFree(c, d, '/', cd);
    assert Split(d, '/') == [d];
    Nest4(a, b, c, d);
  }

  lemma Regroup4<T>(a: seq<T>, b: seq<T>, c: seq<T>, d: seq<T>, sep: T)
    ensures a + [sep] + b + [sep] + c + [sep] + d == a + [sep] + (b + [sep] + (c + [sep] + d))
  {
  }

  lemma Nest4<T>(a: T, b: T, c: T, d: T)
    ensures [a] + ([b] + ([c] + [d])) == [a, b, c, d]
  {
  }

  /** The zone and type can be read back from a path, and the two kinds never coincide. */
  lemma ResourcePathsInjective(zone: string, name: string, zone': string, name': string)
    requires '/' !in zone && '/' !in name && '/' !in zone' && '/' !in name'
    ensures DiskTypePath(zone, name) == DiskTypePath(zone', name') ==> zone == zone' && name == name'
    ensures MachineTypePath(zone, name) == MachineTypePath(zone', name') ==> zone == zone' && name == name'
    ensures DiskTypePath(zone, name) != MachineTypePath(zone', name')
  {
    ResourcePathSegments(zone, name);
    ResourcePathSegments(zone', name');
    assert "diskTypes" != "machineTypes";
  }
}
