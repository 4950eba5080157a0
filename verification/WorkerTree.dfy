/** pkg/scheduler/cache/worker_tree.go: worker names per zone, listed round robin over the zones. */
module WorkerTree {
  import opened Common

  datatype Worker = Worker(uid: string, name: string, labels: map<string, string>)

  function Label(w: Worker, key: string): string {
    if key in w.labels then w.labels[key] else ""
  }

  /** GetZoneKey; nil labels are the empty map. */
  function ZoneKey(w: Worker): string {
    var zone, region := Label(w, "zone"), Label(w, "region");
    if region == "" && zone == "" then "" else region + ":\0:" + zone
  }

  /** Two workers are in one zone exactly when region and zone agree, as long as no region or zone has the
      separator's null character. */
  lemma ZoneKeysTell(v: Worker, w: Worker)
    requires forall u :: u in {v, w} ==> '\0' !in Label(u, "region") && '\0' !in Label(u, "zone")
    ensures ZoneKey(v) == ZoneKey(w)
       <==> Label(v, "region") == Label(w, "region") && Label(v, "zone") == Label(w, "zone")
  {
    var a, b := Label(v, "region"), Label(w, "region");
    var va, vb := Label(v, "zone"), Label(w, "zone");
    if ZoneKey(v) == ZoneKey(w) != "" {
      assert ZoneKey(v)[|a| + 1] == '\0' && ZoneKey(w)[|b| + 1] == '\0';
      assert |a| == |b|;
      assert a == ZoneKey(v)[..|a|] && b == ZoneKey(w)[..|b|];
      assert va == ZoneKey(v)[|a| + 3..] && vb == ZoneKey(w)[|b| + 3..];
    }
  }

  /** tree holds exactly the names of zoneOf, each once, in its zone, and no empty zone. */
  ghost predicate Placed(tree: map<string, seq<string>>, zoneOf: map<string, string>) {
    && (forall z :: z in tree ==> tree[z] != [] && NoDup(tree[z]))
    && (forall z, i :: z in tree && 0 <= i < |tree[z]| ==> tree[z][i] in zoneOf && zoneOf[tree[z][i]] == z)
    && (forall n :: n in zoneOf ==> zoneOf[n] in tree && n in tree[zoneOf[n]])
  }

  /** A name that may only be in this zone is either listed there or in no zone. */
  lemma NotElsewhere(tree: map<string, seq<string>>, zoneOf: map<string, string>, zone: string, name: string)
    requires Placed(tree, zoneOf) && (name in zoneOf ==> zoneOf[name] == zone)
    ensures zone in tree && name in tree[zone] ==> zoneOf == zoneOf[name := zone]
    ensures !(zone in tree && name in tree[zone]) ==> name !in zoneOf
  {
  }

  lemma PlaceName(tree: map<string, seq<string>>, zoneOf: map<string, string>, zone: string, name: string)
    requires Placed(tree, zoneOf) && name !in zoneOf
    ensures Placed(tree[zone := (if zone in tree then tree[zone] else []) + [name]], zoneOf[name := zone])
  {
  }

  lemma UnplaceName(tree: map<string, seq<string>>, zoneOf: map<string, string>, zone: string, i: nat)
    requires Placed(tree, zoneOf) && zone in tree && i < |tree[zone]|
    ensures var rest := tree[zone][..i] + tree[zone][i + 1..];
            Placed(if rest == [] then tree - {zone} else tree[zone := rest], zoneOf - {tree[zone][i]})
  {
  }

  /** The zones with no name at index k, where those in `passed` have been looked at for it. */
  ghost function RanOut(tree: map<string, seq<string>>, zones: set<string>, k: nat, passed: set<string>): set<string>
    requires zones <= tree.Keys
  {
    set z | z in zones && (|tree[z]| < k || (|tree[z]| == k && z in passed))
  }

  lemma OneMoreZone(tree: map<string, seq<string>>, zones: set<string>, k: nat, passed: set<string>, zone: string)
    requires zones <= tree.Keys && zone in zones && zone !in passed
    ensures |RanOut(tree, zones, k, passed + {zone})|
         == |RanOut(tree, zones, k, passed)| + if k == |tree[zone]| then 1 else 0
  {
    if k == |tree[zone]| {
      assert RanOut(tree, zones, k, passed + {zone}) == RanOut(tree, zones, k, passed) + {zone};
    } else {
      assert RanOut(tree, zones, k, passed + {zone}) == RanOut(tree, zones, k, passed);
    }
  }

  class Tree {
    var tree: map<string, seq<string>>
    var zones: seq<string>
    var numWorkers: int
    /** The abstract value: the zone of every name in the tree. */
    ghost var zoneOf: map<string, string>

    ghost predicate Valid()
      reads this
    {
      && Enumerates(zones, tree.Keys)
      && Placed(tree, zoneOf)
      && numWorkers == |zoneOf|
    }

    constructor ()
      ensures Valid() && zoneOf == map[]
    {
      tree, zones, numWorkers, zoneOf := map[], [], 0, map[];
    }

    /** A name may be added again only in the zone it is in. */
    method AddWorker(n: Worker)
      requires Valid() && (n.name in zoneOf ==> zoneOf[n.name] == ZoneKey(n))
      modifies this
      ensures Valid() && zoneOf == old(zoneOf)[n.name := ZoneKey(n)]
    {
      hide ZoneKey, Placed, Enumerates;
      var zone := ZoneKey(n);
      NotElsewhere(tree, zoneOf, zone, n.name);
      if zone in tree && n.name in tree[zone] {
        return;
      }
      Append(zone, n.name);
    }

    method Append(zone: string, name: string)
      requires Valid() && name !in zoneOf
      modifies this
      ensures zoneOf == old(zoneOf)[name := zone]
      ensures Valid()
    {
      hide Placed, Enumerates;
      PlaceName(tree, zoneOf, zone, name);
      var na := if zone in tree then tree[zone] else [];
      if zone !in tree {
        EnumerateOneMore(zones, tree.Keys, zone);
        zones := zones + [zone];
      }
      tree := tree[zone := na + [name]];
      assert tree.Keys == old(tree).Keys + {zone};
      assert zone in old(tree) ==> tree.Keys == old(tree).Keys;
      OneMoreName(zoneOf, name, zone);
      zoneOf := zoneOf[name := zone];
      numWorkers := numWorkers + 1;
    }

    lemma OneMoreName(m: map<string, string>, name: string, zone: string)
      requires name !in m
      ensures |m[name := zone]| == |m| + 1
    {
    }

    method RemoveWorker(n: Worker) returns (found: bool)
      requires Valid()
      modifies this
      ensures Valid()
      ensures found <==> n.name in old(zoneOf) && old(zoneOf)[n.name] == ZoneKey(n)
      ensures zoneOf == if found then old(zoneOf) - {n.name} else old(zoneOf)
    {
      hide ZoneKey;
      var zone := ZoneKey(n);
      if zone in tree {
        var na := tree[zone];
        var i := 0;
        while i < |na|
          invariant 0 <= i <= |na| && n.name !in na[..i]
        {
          if na[i] == n.name {
            RemoveAt(zone, i);
            return true;
          }
          i := i + 1;
        }
        assert na[..i] == na;
      }
      return false;
    }

    method RemoveAt(zone: string, i: nat)
      requires Valid() && zone in tree && i < |tree[zone]|
      modifies this
      ensures Valid() && zoneOf == old(zoneOf) - {old(tree[zone][i])}
    {
      UnplaceName(tree, zoneOf, zone, i);
      var na := tree[zone];
      assert na[i] in zoneOf;
      hide Placed, Enumerates;
      var rest := na[..i] + na[i + 1..];
      if |rest| == 0 {
        RemoveZone(zone);
      } else {
        tree := tree[zone := rest];
        assert tree.Keys == old(tree).Keys;
      }
      zoneOf := zoneOf - {na[i]};
      numWorkers := numWorkers - 1;
      assert zoneOf.Keys == old(zoneOf).Keys - {na[i]};
    }

    method RemoveZone(zone: string)
      requires Enumerates(zones, tree.Keys) && zone in tree
      modifies this
      ensures tree == old(tree) - {zone} && Enumerates(zones, tree.Keys)
      ensures zoneOf == old(zoneOf) && numWorkers == old(numWorkers)
    {
      tree := tree - {zone};
      var i := 0;
      while zones[i] != zone
        invariant 0 <= i < |zones| && zone in zones[i..]
        decreases |zones| - i
      {
        i := i + 1;
      }
      EnumerateOneLess(zones, old(tree).Keys, i);
      assert tree.Keys == old(tree).Keys - {zone};
      zones := zones[..i] + zones[i + 1..];
    }

    method UpdateWorker(old': Worker, new': Worker)
      requires Valid() && new'.name == old'.name
      requires new'.name in zoneOf ==> zoneOf[new'.name] == ZoneKey(old') || zoneOf[new'.name] == ZoneKey(new')
      modifies this
      ensures Valid()
      ensures zoneOf == if ZoneKey(old') == ZoneKey(new') then old(zoneOf) else old(zoneOf)[new'.name := ZoneKey(new')]
    {
      hide ZoneKey, Placed;
      if ZoneKey(old') == ZoneKey(new') {
        return;
      }
      var _ := RemoveWorker(old');
      AddWorker(new');
      assert zoneOf == old(zoneOf)[new'.name := ZoneKey(new')];
    }

    // ---- The round-robin listing --------------------------------------------------------------

    /** `out` holds every name at an index below k, and those at index k in the first j zones. */
    ghost predicate Listed(out: seq<string>, k: nat, j: nat)
      requires Valid() && j <= |zones|
      reads this
    {
      && NoDup(out)
      && (forall n :: n in out ==> n in zoneOf)
      && (forall z, i :: z in tree && 0 <= i < |tree[z]| ==>
            (tree[z][i] in out <==> i < k || (i == k && z in zones[..j])))
    }

    /** The zones that ran out before index k. */
    ghost function Exhausted(k: nat, j: nat): set<string>
      requires Valid() && j <= |zones|
      reads this
    {
      RanOut(tree, Elems(zones), k, Elems(zones[..j]))
    }

    lemma NamesCounted(out: seq<string>)
      requires Valid() && NoDup(out) && forall n :: n in out ==> n in zoneOf
      ensures |out| <= numWorkers
      ensures |out| == numWorkers ==> Enumerates(out, zoneOf.Keys)
    {
      DistinctCount(out);
      assert Elems(out) <= zoneOf.Keys;
      SubsetCount(Elems(out), zoneOf.Keys);
    }

    lemma AllZonesExhausted(out: seq<string>, k: nat)
      requires Valid() && Listed(out, k, 0) && |Exhausted(k, 0)| >= |zones|
      ensures |out| >= numWorkers
    {
      DistinctCount(zones);
      assert Exhausted(k, 0) <= Elems(zones);
      SubsetCount(Exhausted(k, 0), Elems(zones));
      forall n | n in zoneOf ensures n in out {
        var z := zoneOf[n];
        assert z in Exhausted(k, 0);
        var i :| 0 <= i < |tree[z]| && tree[z][i] == n;
      }
      assert zoneOf.Keys <= Elems(out);
      DistinctCount(out);
      SubsetCount(zoneOf.Keys, Elems(out));
    }

    lemma SomeZoneLeft(out: seq<string>, k: nat) returns (z: string)
      requires Valid() && Listed(out, k, 0) && |out| < numWorkers
      ensures z in tree && k < |tree[z]|
    {
      if Elems(out) == zoneOf.Keys {
        DistinctCount(out);
        assert false;
      }
      var n :| n in zoneOf && n !in out;
      z := zoneOf[n];
      var i :| 0 <= i < |tree[z]| && tree[z][i] == n;
    }

    /** name is the i-th of the z-th zone. */
    ghost predicate Stands(name: string, z: nat, i: nat)
      reads this
    {
      z < |zones| && zones[z] in tree && i < |tree[zones[z]]| && tree[zones[z]][i] == name
    }

    /** Round robin: a name of an earlier place in its zone comes first, and among names of the same place
        that of the earlier zone. */
    ghost predicate InTurn(out: seq<string>)
      reads this
    {
      forall a, b, z, i, y, j :: 0 <= a < b < |out| && Stands(out[a], z, i) && Stands(out[b], y, j) ==>
        i < j || (i == j && z < y)
    }

    lemma NextInTurn(out: seq<string>, k: nat, j: nat)
      requires Valid() && j < |zones| && Listed(out, k, j) && k < |tree[zones[j]]| && InTurn(out)
      ensures InTurn(out + [tree[zones[j]][k]])
    {
      var name := tree[zones[j]][k];
      var more := out + [name];
      hide InTurn;
      forall z: nat, i: nat | Stands(name, z, i) ensures z == j && i == k { StandsOnce(name, z, i, j, k); }
      forall n, z: nat, i: nat | n in out && Stands(n, z, i) ensures i < k || (i == k && z < j) {
        StandsBefore(out, n, z, i, k, j);
      }
      hide Stands, Listed, Valid;
      LaterLast(out, name, j, k);
    }

    lemma LaterLast(out: seq<string>, name: string, j: nat, k: nat)
      requires InTurn(out)
      requires forall z: nat, i: nat :: Stands(name, z, i) ==> z == j && i == k
      requires forall n, z: nat, i: nat :: n in out && Stands(n, z, i) ==> i < k || (i == k && z < j)
      ensures InTurn(out + [name])
    {
      hide Stands;
    }

    lemma StandsOnce(name: string, z: nat, i: nat, y: nat, j: nat)
      requires Valid() && Stands(name, z, i) && Stands(name, y, j)
      ensures z == y && i == j
    {
      assert zoneOf[tree[zones[z]][i]] == zones[z] && zoneOf[tree[zones[y]][j]] == zones[y];
    }

    lemma StandsBefore(out: seq<string>, name: string, z: nat, i: nat, k: nat, j: nat)
      requires Valid() && j <= |zones| && Listed(out, k, j) && name in out && Stands(name, z, i)
      ensures i < k || (i == k && z < j)
    {
      hide Placed;
      assert tree[zones[z]][i] in out;
    }

    /** Terminates without the "all zones exhausted" error and lists every name exactly once, round robin
        over the zones. */
    method List() returns (out: seq<string>, ok: bool)
      requires Valid()
      ensures ok && Enumerates(out, zoneOf.Keys)
      ensures InTurn(out)
    {
      if |zones| == 0 {
        assert forall n :: n !in zoneOf;
        return [], true;
      }
      out := [];
      var numExhausted, workerIndex: nat := 0, 0;
      assert Exhausted(0, 0) == {};
      while |out| < numWorkers
        invariant Listed(out, workerIndex, 0) && numExhausted == |Exhausted(workerIndex, 0)|
        invariant InTurn(out)
        decreases numWorkers - |out|
      {
        if numExhausted >= |zones| {
          AllZonesExhausted(out, workerIndex);
          assert false;
        }
        ghost var before := out;
        ghost var left := SomeZoneLeft(out, workerIndex);
        out, numExhausted := ListRound(out, numExhausted, workerIndex);
        assert tree[left][workerIndex] in out && tree[left][workerIndex] !in before;
        workerIndex := workerIndex + 1;
      }
      NamesCounted(out);
      return out, true;
    }

    /** One pass over the zones. */
    method ListRound(out0: seq<string>, exhausted0: nat, k: nat) returns (out: seq<string>, exhausted: nat)
      requires Valid() && Listed(out0, k, 0) && exhausted0 == |Exhausted(k, 0)|
      ensures out0 <= out && Listed(out, k + 1, 0) && exhausted == |Exhausted(k + 1, 0)|
      ensures InTurn(out0) ==> InTurn(out)
    {
      hide Placed, Listed, Exhausted, InTurn;
      out, exhausted := out0, exhausted0;
      for j := 0 to |zones|
        invariant out0 <= out && Listed(out, k, j) && exhausted == |Exhausted(k, j)|
        invariant InTurn(out0) ==> InTurn(out)
      {
        var na := tree[zones[j]];
        ExhaustedStep(k, j);
        if k >= |na| {
          if k == |na| {
            exhausted := exhausted + 1;
          }
          SkipZone(out, k, j);
        } else {
          ListOne(out, k, j);
          if InTurn(out) { NextInTurn(out, k, j); }
          out := out + [na[k]];
        }
      }
      NextRound(out, k);
    }

    lemma ExhaustedStep(k: nat, j: nat)
      requires Valid() && j < |zones|
      ensures |Exhausted(k, j + 1)| == |Exhausted(k, j)| + if k == |tree[zones[j]]| then 1 else 0
    {
      hide Placed, RanOut;
      assert zones[..j + 1] == zones[..j] + [zones[j]];
      assert Elems(zones[..j + 1]) == Elems(zones[..j]) + {zones[j]};
      OneMoreZone(tree, Elems(zones), k, Elems(zones[..j]), zones[j]);
    }

    lemma SkipZone(out: seq<string>, k: nat, j: nat)
      requires Valid() && j < |zones| && Listed(out, k, j) && k >= |tree[zones[j]]|
      ensures Listed(out, k, j + 1)
    {
      assert zones[..j + 1] == zones[..j] + [zones[j]];
    }

    lemma NextRound(out: seq<string>, k: nat)
      requires Valid() && Listed(out, k, |zones|)
      ensures Listed(out, k + 1, 0) && Exhausted(k, |zones|) == Exhausted(k + 1, 0)
    {
      assert zones[..|zones|] == zones;
    }

    lemma ListOne(out: seq<string>, k: nat, j: nat)
      requires Valid() && j < |zones| && Listed(out, k, j) && k < |tree[zones[j]]|
      ensures Listed(out + [tree[zones[j]][k]], k, j + 1)
    {
    }
  }
}
