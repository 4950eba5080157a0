/** UpdateSnapshot on values: the incremental refresh against the full rebuild it stands for. */
module SnapshotSpec {
  import opened Common
  import opened WorkerTree
  import opened CacheSpec

  /** infos and list are keyed by worker Name; the list holds the entries of infos by reference, so
      naming an entry is enough. */
  datatype Snapshot = Snapshot(infos: Infos, list: seq<string>, generation: int)

  const NEW_SNAPSHOT := Snapshot(map[], [], 0)

  // ---- The refresh, as the code does it --------------------------------------------------------

  /** The walk from the head: stops at the first entry not newer than the snapshot. */
  function Walk(order: seq<string>, infos: Infos, since: int, m: Infos): Infos
  {
    if order == [] || order[0] !in infos || infos[order[0]].generation <= since then m
    else Walk(order[1..], infos, since, Store(m, infos[order[0]]))
  }

  /** *existing = *clone, under the worker's name. */
  function Store(m: Infos, info: WorkerInfo): Infos {
    if info.worker.Some? then m[info.worker.value.name := info] else m
  }

  /** removeDeletedWorkersFromSnapshot looks the snapshot's Name up in the map keyed by UID. */
  predicate Deletable(infos: Infos, name: string) {
    !Live(infos, name)
  }

  function DeleteStale(infos: Infos, names: seq<string>, toDelete: int, m: Infos): Infos {
    if names == [] || toDelete <= 0 then m
    else if Deletable(infos, names[0]) then DeleteStale(infos, names[1..], toDelete - 1, m - {names[0]})
    else DeleteStale(infos, names[1..], toDelete, m)
  }

  /** updateWorkerInfoSnapshotList: the tree's listing, without names the map does not have. */
  function Rebuild(listing: seq<string>, m: Infos): seq<string> {
    if listing == [] then []
    else if listing[0] in m then [listing[0]] + Rebuild(listing[1..], m)
    else Rebuild(listing[1..], m)
  }

  function Updated(c: Cache, s: Snapshot): Infos {
    Walk(c.order, c.infos, s.generation, s.infos)
  }

  function HeadGeneration(c: Cache, default': int): int {
    if c.order == [] || c.order[0] !in c.infos then default' else c.infos[c.order[0]].generation
  }

  /** `names` is the order in which the stale deletion ranges over the map, `listing` what the tree
      lists. Returns the new snapshot and whether the call ends without its error. */
  function Refresh(c: Cache, s: Snapshot, names: seq<string>, listing: seq<string>): (Snapshot, bool) {
    var m1 := Updated(c, s);
    var surplus := |m1| - |c.zoneOf|;
    var m2 := if surplus > 0 then DeleteStale(c.infos, names, surplus, m1) else m1;
    var relist := surplus > 0 || m1.Keys != s.infos.Keys;
    var list := if relist then Rebuild(listing, m2) else s.list;
    var ok := |list| == |c.zoneOf|;
    (Snapshot(m2, if ok then list else Rebuild(listing, m2),
              HeadGeneration(c, s.generation)), ok)
  }

  // ---- What it must equal ----------------------------------------------------------------------

  /** A full rebuild: every live worker under its name with its current worker, stages, generation. */
  ghost function Full(c: Cache): Infos
    requires Rooted(c.infos, c.zoneOf, c.owner)
  {
    map n | n in c.owner :: c.infos[c.owner[n]]
  }

  ghost predicate Correct(c: Cache, s: Snapshot)
    requires Rooted(c.infos, c.zoneOf, c.owner)
  {
    s.infos == Full(c) && Enumerates(s.list, c.owner.Keys)
  }

  /** The snapshot was right at some earlier point: every live worker not touched since is in it as it
      is now. */
  ghost predicate Past(c: Cache, s: Snapshot) {
    && s.generation <= c.gen
    && Enumerates(s.list, s.infos.Keys)
    && (forall uid :: Live(c.infos, uid) && c.infos[uid].generation <= s.generation ==> Current(c.infos[uid], s.infos))
  }

  predicate Current(info: WorkerInfo, m: Infos)
    requires info.worker.Some?
  {
    info.worker.value.name in m && m[info.worker.value.name] == info
  }

  /** The names left over in the snapshot from workers that are gone. */
  ghost function Stale(c: Cache, s: Snapshot): set<string> {
    s.infos.Keys - c.owner.Keys
  }

  /** The UID-keyed lookup of a Name gives the right answer for every name it may meet. A caller can
      test this before the call; it holds whenever workers bear their UID as Name. */
  ghost predicate NamesFound(c: Cache, s: Snapshot) {
    forall n :: n in s.infos.Keys + c.owner.Keys ==> (Live(c.infos, n) <==> n in c.owner)
  }

  /** What decides whether a refresh is right whatever order it meets. */
  ghost predicate Reliable(c: Cache, s: Snapshot) {
    Stale(c, s) == {} || NamesFound(c, s)
  }

  // ---- Proof: the walk -------------------------------------------------------------------------

  ghost predicate NamesApart(infos: Infos) {
    forall u, w :: Live(infos, u) && Live(infos, w) ==>
      (infos[u].worker.value.name == infos[w].worker.value.name ==> u == w)
  }

  lemma NamesAreApart(infos: Infos, zoneOf: map<string, string>, owner: map<string, string>)
    requires Rooted(infos, zoneOf, owner)
    ensures NamesApart(infos)
  {
  }

  /** What the walk leaves behind: in `m'` every live worker of the list is current if it was touched
      since, or was current before; names of no live worker are untouched. */
  lemma {:induction false} WalkUpdates(order: seq<string>, infos: Infos, since: int, m: Infos)
    requires NoDup(order) && NamesApart(infos)
    requires forall u :: u in order ==> u in infos
    requires Descending(order, infos)
    ensures var m' := Walk(order, infos, since, m);
      && (forall u :: u in order && Live(infos, u) && (infos[u].generation > since || Current(infos[u], m)) ==>
            Current(infos[u], m'))
      && (forall u :: Live(infos, u) && u !in order && Current(infos[u], m) ==> Current(infos[u], m'))
      && (forall n :: n in m ==> n in m')
      && (forall n :: n in m' && n !in m ==>
            exists u :: u in order && Live(infos, u) && infos[u].worker.value.name == n)
  {
    if order != [] && infos[order[0]].generation > since {
      var u0 := order[0];
      var m1 := Store(m, infos[u0]);
      forall i, j | 0 <= i < j < |order[1..]|
        ensures infos[order[1..][i]].generation > infos[order[1..][j]].generation {
        assert order[1..][i] == order[i + 1] && order[1..][j] == order[j + 1];
      }
      WalkUpdates(order[1..], infos, since, m1);
      var m' := Walk(order, infos, since, m);
      assert forall u :: u in order <==> u == u0 || u in order[1..];
      assert u0 !in order[1..];
      forall u | Live(infos, u) && (Current(infos[u], m) || u == u0) ensures Current(infos[u], m1) {
      }
      forall n | n in m' && n !in m
        ensures exists u :: u in order && Live(infos, u) && infos[u].worker.value.name == n {
        if n in m1 {
          assert u0 in order && Live(infos, u0) && infos[u0].worker.value.name == n;
        } else {
          var u :| u in order[1..] && Live(infos, u) && infos[u].worker.value.name == n;
          assert u in order;
        }
      }
    } else if order != [] {
      forall u | u in order ensures infos[u].generation <= since {
        var i :| 0 <= i < |order| && order[i] == u;
      }
    }
  }

  /** After the walk the map holds every live worker as it is now, and besides only stale names. */
  lemma UpdatedHasLive(c: Cache, s: Snapshot)
    requires Inv(c) && Past(c, s)
    ensures forall n :: n in c.owner ==> n in Updated(c, s) && Updated(c, s)[n] == c.infos[c.owner[n]]
    ensures Updated(c, s).Keys == c.owner.Keys + Stale(c, s)
  {
    NamesAreApart(c.infos, c.zoneOf, c.owner);
    WalkUpdates(c.order, c.infos, s.generation, s.infos);
    var m := Updated(c, s);
    hide Walk;
    forall n | n in c.owner ensures n in m && m[n] == c.infos[c.owner[n]] {
      var u := c.owner[n];
      assert Live(c.infos, u) && u in c.order;
      assert Current(c.infos[u], m);
    }
    forall n | n in m ensures n in c.owner.Keys + Stale(c, s) {
      if n !in s.infos {
        var u :| u in c.order && Live(c.infos, u) && c.infos[u].worker.value.name == n;
        assert InfoOk(c.infos[u], u, c.zoneOf, c.owner);
      }
    }
  }

  // ---- Proof: the count-based deletion ---------------------------------------------------------

  /** With as many deletions to do as there are stale names, and exactly these deletable, the loop
      deletes exactly these, in whatever order it meets them. */
  lemma {:induction false} DeletesExactly(infos: Infos, names: seq<string>, stale: set<string>, k: int, m: Infos)
    requires NoDup(names) && (forall n :: n in stale ==> n in names) && k == |stale|
    requires forall n :: n in names ==> (Deletable(infos, n) <==> n in stale)
    ensures DeleteStale(infos, names, k, m) == m - stale
  {
    hide Deletable;
    if stale == {} {
      assert m - stale == m;
    } else {
      Nonempty(stale, names);
      var n, rest := names[0], names[1..];
      TailNoDup(names);
      if n in stale {
        OneLess(stale, n, m);
        DeletesExactly(infos, rest, stale - {n}, k - 1, m - {n});
      } else {
        DeletesExactly(infos, rest, stale, k, m);
      }
    }
  }

  lemma Nonempty(a: set<string>, names: seq<string>)
    requires a != {} && forall n :: n in a ==> n in names
    ensures names != [] && |a| > 0
  {
  }

  lemma TailNoDup(names: seq<string>)
    requires NoDup(names) && names != []
    ensures NoDup(names[1..]) && names[0] !in names[1..]
    ensures forall n :: n in names <==> n == names[0] || n in names[1..]
  {
    assert names == [names[0]] + names[1..];
  }

  lemma OneLess(a: set<string>, n: string, m: Infos)
    requires n in a
    ensures |a - {n}| == |a| - 1 && m - {n} - (a - {n}) == m - a
  {
  }

  lemma {:induction false} DeleteOnlyDeletable(infos: Infos, names: seq<string>, k: int, m: Infos)
    ensures DeleteStale(infos, names, k, m).Keys <= m.Keys
    ensures forall n :: n in m && !Deletable(infos, n) ==> n in DeleteStale(infos, names, k, m)
  {
    if names != [] && k > 0 {
      if Deletable(infos, names[0]) {
        DeleteOnlyDeletable(infos, names[1..], k - 1, m - {names[0]});
      } else {
        DeleteOnlyDeletable(infos, names[1..], k, m);
      }
    }
  }

  /** The rebuilt list is the listing without the names that have no entry. */
  lemma {:induction false} RebuildAll(listing: seq<string>, m: Infos)
    ensures forall n :: n in Rebuild(listing, m) <==> n in listing && n in m
    ensures NoDup(listing) ==> NoDup(Rebuild(listing, m))
    ensures (forall n :: n in listing ==> n in m) ==> Rebuild(listing, m) == listing
  {
    if listing != [] {
      RebuildAll(listing[1..], m);
    }
  }

  /** The map after the walk splits into the live names and the stale ones. */
  lemma Split(c: Cache, s: Snapshot)
    requires Inv(c) && Past(c, s)
    ensures var m := Updated(c, s);
      && m.Keys == c.owner.Keys + Stale(c, s) && c.zoneOf.Keys == c.owner.Keys
      && |m| - |c.zoneOf| == |Stale(c, s)|
      && m - Stale(c, s) == Full(c)
      && HeadGeneration(c, s.generation) <= c.gen
  {
    hide Updated, Ordered, Assigned, Rooted, Past, HeadGeneration;
    UpdatedHasLive(c, s);
    HeadIsKnown(c, s);
    ZonesAreOwners(c);
    CountParts(Updated(c, s), c.zoneOf, c.owner, Stale(c, s));
    LiveIsFull(c, Updated(c, s), Stale(c, s));
  }

  lemma LiveIsFull(c: Cache, m: Infos, stale: set<string>)
    requires Rooted(c.infos, c.zoneOf, c.owner) && m.Keys == c.owner.Keys + stale && stale !! c.owner.Keys
    requires forall n :: n in c.owner ==> m[n] == c.infos[c.owner[n]]
    ensures m - stale == Full(c)
  {
    hide InfoOk;
    assert (m - stale).Keys == c.owner.Keys;
  }

  lemma ZonesAreOwners(c: Cache)
    requires Inv(c)
    ensures c.zoneOf.Keys == c.owner.Keys
  {
  }

  lemma CountParts(m: Infos, zoneOf: map<string, string>, owner: map<string, string>, stale: set<string>)
    requires m.Keys == owner.Keys + stale && owner.Keys !! stale && zoneOf.Keys == owner.Keys
    ensures |m| - |zoneOf| == |stale|
  {
  }

  lemma HeadIsKnown(c: Cache, s: Snapshot)
    requires Inv(c) && Past(c, s)
    ensures HeadGeneration(c, s.generation) <= c.gen
  {
  }

  // ---- The theorem -----------------------------------------------------------------------------

  lemma DeletionIsExact(infos: Infos, m: Infos, live: set<string>, stale: set<string>, names: seq<string>)
    requires m.Keys == live + stale && live !! stale && Enumerates(names, m.Keys)
    requires forall n :: n in m ==> (Live(infos, n) <==> n in live)
    ensures DeleteStale(infos, names, |stale|, m) == m - stale
  {
    DeletesExactly(infos, names, stale, |stale|, m);
  }

  /** In a reliable state a snapshot last refreshed at any earlier point is brought up to a full rebuild,
      without error, and stays good for the next refresh. */
  lemma RefreshIsFullRebuild(c: Cache, s: Snapshot, names: seq<string>, listing: seq<string>)
    requires Inv(c) && Past(c, s) && Reliable(c, s)
    requires Enumerates(names, Updated(c, s).Keys) && Enumerates(listing, c.zoneOf.Keys)
    ensures Refresh(c, s, names, listing).1 && Correct(c, Refresh(c, s, names, listing).0)
    ensures Past(c, Refresh(c, s, names, listing).0)
  {
    assert Enumerates(s.list, s.infos.Keys);
    hide Refresh, Updated, Ordered, Assigned, Rooted, Past, Enumerates, HeadGeneration;
    var r := Refresh(c, s, names, listing);
    Split(c, s);
    RefreshedMap(c, s, names, listing);
    ListIsRight(c, s, Updated(c, s), r.0.infos, names, listing);
    FullIsPast(c, r.0);
  }

  lemma RefreshedMap(c: Cache, s: Snapshot, names: seq<string>, listing: seq<string>)
    requires Inv(c) && Past(c, s) && Reliable(c, s)
    requires Enumerates(names, Updated(c, s).Keys)
    ensures Refresh(c, s, names, listing).0.infos == Full(c)
    ensures Refresh(c, s, names, listing).0.generation <= c.gen
    ensures |Updated(c, s)| <= |c.zoneOf| ==> Full(c) == Updated(c, s)
  {
    hide Refresh, Updated, DeleteStale, Inv, Past, Enumerates, HeadGeneration, Full, Live, Reliable, Stale;
    Split(c, s);
    RefreshedInfos(c, s, names, listing);
    ReliableNames(c, s, Updated(c, s));
    SurplusIsStale(c.infos, Updated(c, s), c.owner.Keys, Stale(c, s), names, |c.zoneOf|);
  }

  /** The branch of the refresh that deletes, and the one that does not. */
  lemma SurplusIsStale(infos: Infos, m: Infos, live: set<string>, stale: set<string>, names: seq<string>, n: nat)
    requires m.Keys == live + stale && live !! stale && |m| - n == |stale| && Enumerates(names, m.Keys)
    requires stale == {} || forall k :: k in m ==> (Live(infos, k) <==> k in live)
    ensures (if |m| > n then DeleteStale(infos, names, |m| - n, m) else m) == m - stale
    ensures |m| <= n ==> m - stale == m
  {
    hide DeleteStale, Enumerates, Live;
    if stale != {} {
      DeletionIsExact(infos, m, live, stale, names);
    } else {
      NothingStale(m, stale);
    }
  }

  lemma ReliableNames(c: Cache, s: Snapshot, m: Infos)
    requires Reliable(c, s) && m.Keys == c.owner.Keys + Stale(c, s)
    ensures c.owner.Keys !! Stale(c, s)
    ensures Stale(c, s) == {} || forall n :: n in m ==> (Live(c.infos, n) <==> n in c.owner)
  {
    hide Live;
  }

  lemma NothingStale(m: Infos, stale: set<string>)
    requires stale == {}
    ensures m - stale == m && |stale| == 0
  {
  }

  lemma RefreshedInfos(c: Cache, s: Snapshot, names: seq<string>, listing: seq<string>)
    ensures Refresh(c, s, names, listing).0.infos
         == var m := Updated(c, s);
            if |m| > |c.zoneOf| then DeleteStale(c.infos, names, |m| - |c.zoneOf|, m) else m
    ensures Refresh(c, s, names, listing).0.generation == HeadGeneration(c, s.generation)
  {
    hide Updated, DeleteStale, Rebuild, HeadGeneration;
  }

  lemma ListIsRight(c: Cache, s: Snapshot, m1: Infos, m2: Infos, names: seq<string>, listing: seq<string>)
    requires m1 == Updated(c, s)
    requires m2 == Refresh(c, s, names, listing).0.infos && m2.Keys == c.owner.Keys == c.zoneOf.Keys
    requires Enumerates(listing, c.zoneOf.Keys) && Enumerates(s.list, s.infos.Keys)
    requires |m1| <= |c.zoneOf| ==> m2 == m1
    ensures Refresh(c, s, names, listing).1
    ensures Enumerates(Refresh(c, s, names, listing).0.list, c.owner.Keys)
  {
    RebuildAll(listing, m2);
    EnumerationCount(listing, c.zoneOf.Keys);
    EnumerationCount(s.list, s.infos.Keys);
    hide Updated, Rebuild, DeleteStale, Enumerates;
  }

  lemma FullIsPast(c: Cache, r: Snapshot)
    requires Inv(c) && r.infos == Full(c) && Enumerates(r.list, c.owner.Keys)
    requires r.generation <= c.gen
    ensures Past(c, r)
  {
  }

  /** A refresh notes the newest generation there is, so that one right after it walks nowhere and changes
      nothing. */
  lemma SecondRefreshDoesNothing(c: Cache, s: Snapshot, names: seq<string>, listing: seq<string>, names': seq<string>,
                                 listing': seq<string>)
    requires Inv(c) && Past(c, s) && Reliable(c, s)
    requires Enumerates(names, Updated(c, s).Keys) && Enumerates(listing, c.zoneOf.Keys)
    ensures var r := Refresh(c, s, names, listing).0;
            && (forall uid :: uid in c.infos ==> c.infos[uid].generation <= r.generation)
            && (c.infos != map[] ==> exists uid :: uid in c.infos && c.infos[uid].generation == r.generation)
            && Updated(c, r) == r.infos && Refresh(c, r, names', listing') == (r, true)
  {
    RefreshIsFullRebuild(c, s, names, listing);
    RefreshedInfos(c, s, names, listing);
    var r := Refresh(c, s, names, listing).0;
    assert Enumerates(r.list, c.owner.Keys);
    hide Refresh, Enumerates, Past, Reliable, Assigned;
    HeadIsNewest(c, s.generation);
    HeadIsNewest(c, r.generation);
    NoWalk(c, r);
    SettledSize(c, r);
    SettledRefresh(c, r, names', listing');
  }

  lemma HeadIsNewest(c: Cache, since: int)
    requires Ordered(c.order, c.infos, c.gen)
    ensures forall uid :: uid in c.infos ==> c.infos[uid].generation <= HeadGeneration(c, since)
    ensures c.infos != map[] ==> c.order != [] && c.order[0] in c.infos
    ensures c.infos != map[] ==> HeadGeneration(c, since) == c.infos[c.order[0]].generation
    ensures c.infos == map[] ==> HeadGeneration(c, since) == since
  {
    forall uid | uid in c.infos ensures c.infos[uid].generation <= HeadGeneration(c, since) {
      assert uid in c.order;
      var i :| 0 <= i < |c.order| && c.order[i] == uid;
      assert c.order[0] in c.order;
      assert i > 0 ==> c.infos[c.order[0]].generation > c.infos[c.order[i]].generation;
    }
    assert c.order != [] ==> c.order[0] in c.order;
  }

  lemma NoWalk(c: Cache, r: Snapshot)
    requires forall uid :: uid in c.infos ==> c.infos[uid].generation <= r.generation
    ensures Updated(c, r) == r.infos
  {
  }

  lemma SettledSize(c: Cache, r: Snapshot)
    requires Inv(c) && Correct(c, r)
    ensures |r.infos| == |c.zoneOf| == |r.list|
  {
    ZonesAreOwners(c);
    EnumerationCount(r.list, c.owner.Keys);
    assert r.infos.Keys == c.owner.Keys;
    assert |r.infos| == |r.infos.Keys| && |c.zoneOf| == |c.zoneOf.Keys|;
  }

  lemma SettledRefresh(c: Cache, r: Snapshot, names: seq<string>, listing: seq<string>)
    requires Updated(c, r) == r.infos && |r.infos| == |c.zoneOf| == |r.list|
    requires HeadGeneration(c, r.generation) == r.generation
    ensures Refresh(c, r, names, listing) == (r, true)
  {
    hide Updated, HeadGeneration;
  }

  /** The refresh is right for this order of ranging over the map. */
  ghost predicate RightFor(c: Cache, s: Snapshot, names: seq<string>, listing: seq<string>)
    requires Inv(c)
  {
    Refresh(c, s, names, listing).1 && Correct(c, Refresh(c, s, names, listing).0)
  }

  /** Exactly when: for every order in which the deletion may range over the map the result is right
      if and only if nothing is stale, or every name it may meet is the UID of a live worker exactly
      when it is the name of one. */
  lemma RefreshIsFullRebuildIff(c: Cache, s: Snapshot, listing: seq<string>)
    requires Inv(c) && Past(c, s) && Enumerates(listing, c.zoneOf.Keys)
    ensures (forall names :: Enumerates(names, Updated(c, s).Keys) ==> RightFor(c, s, names, listing))
            <==> Stale(c, s) == {} || NamesFound(c, s)
  {
    hide Refresh, Updated, Enumerates, Past, Ordered, Assigned, Rooted, HeadGeneration, Full;
    if Stale(c, s) == {} || NamesFound(c, s) {
      forall names | Enumerates(names, Updated(c, s).Keys) ensures RightFor(c, s, names, listing) {
        RefreshIsFullRebuild(c, s, names, listing);
      }
    } else {
      var n :| n in s.infos.Keys + c.owner.Keys && !(Live(c.infos, n) <==> n in c.owner);
      Split(c, s);
      var names := OrderStartingWith(Updated(c, s).Keys, n);
      DeletionGoesWrong(c, s, n, names, listing);
      assert !RightFor(c, s, names, listing);
    }
  }

  lemma OrderStartingWith(keys: set<string>, n: string) returns (names: seq<string>)
    requires n in keys
    ensures Enumerates(names, keys) && names != [] && names[0] == n
  {
    var rest := EnumerationExists(keys - {n});
    names := [n] + rest;
    EnumerateInFront(rest, keys - {n}, n);
    assert keys - {n} + {n} == keys;
  }

  lemma DeletionGoesWrong(c: Cache, s: Snapshot, n: string, names: seq<string>, listing: seq<string>)
    requires Inv(c) && Past(c, s) && Stale(c, s) != {}
    requires n in Updated(c, s) && !(Live(c.infos, n) <==> n in c.owner)
    requires names != [] && names[0] == n
    ensures Refresh(c, s, names, listing).0.infos != Full(c)
  {
    hide Updated, Ordered, Assigned, Rooted, Past, HeadGeneration, DeleteStale, Refresh, Full, Stale, Live;
    Split(c, s);
    var k := |Stale(c, s)|;
    assert k > 0;
    WrongNameDecides(c.infos, names, k, Updated(c, s), n);
    RefreshDeletes(c, s, names, listing, k);
    FullKeys(c);
  }

  lemma RefreshDeletes(c: Cache, s: Snapshot, names: seq<string>, listing: seq<string>, k: int)
    requires k == |Updated(c, s)| - |c.zoneOf| && k > 0
    ensures Refresh(c, s, names, listing).0.infos == DeleteStale(c.infos, names, k, Updated(c, s))
  {
  }

  lemma FullKeys(c: Cache)
    requires Inv(c)
    ensures Full(c).Keys == c.owner.Keys
  {
  }

  /** The first name goes if it is deletable, and a name that is not deletable stays. */
  lemma WrongNameDecides(infos: Infos, names: seq<string>, k: int, m: Infos, n: string)
    requires names != [] && names[0] == n && n in m && k > 0
    ensures n in DeleteStale(infos, names, k, m) <==> Live(infos, n)
  {
    DeleteOnlyDeletable(infos, names[1..], k - 1, m - {n});
    DeleteOnlyDeletable(infos, names, k, m);
  }

  // ---- Every operation leaves old snapshots good ------------------------------------------------

  /** What d changed over c bears a generation that no snapshot of c can have. */
  ghost predicate Later(c: Cache, d: Cache) {
    && c.gen <= d.gen
    && (forall uid :: uid in d.infos && d.infos[uid].generation <= c.gen ==>
          uid in c.infos && c.infos[uid] == d.infos[uid])
  }

  lemma LaterKeepsPast(c: Cache, d: Cache, s: Snapshot)
    requires Past(c, s) && Later(c, d)
    ensures Past(d, s)
  {
  }

  lemma InsertLater(c: Cache, s: Stage, a: bool)
    ensures Later(c, Insert(c, s, a))
  {
    hide Without;
  }

  lemma RemoveLater(c: Cache, s: Stage)
    ensures Later(c, Remove(c, s).0)
  {
    hide Without, RemoveAt, Find;
  }

  lemma LaterTwice(c: Cache, d: Cache, e: Cache)
    requires Later(c, d) && Later(d, e)
    ensures Later(c, e)
  {
  }

  lemma ReinsertLater(c: Cache, o: Stage, s: Stage)
    ensures Later(c, Reinsert(c, o, s).0)
  {
    hide Insert, Remove;
    RemoveLater(c, o);
    InsertLater(Remove(c, o).0, s, false);
    LaterTwice(c, Remove(c, o).0, Insert(Remove(c, o).0, s, false));
  }

  lemma StepLater(c: Cache, op: Op)
    ensures Later(c, Step(c, op).0)
  {
    hide Insert, Remove, Reinsert, Without, ZoneKey;
    match op
    case OpAssumeStage(s) => InsertLater(c, s, true);
    case OpFinishBinding(s) =>
    case OpForgetStage(s) => RemoveLater(c, s);
    case OpAddStage(s) =>
      InsertLater(c, s, false);
      if s.uid in c.states {
        ReinsertLater(c, c.states[s.uid].stage, s);
      }
    case OpUpdateStage(o, s) => ReinsertLater(c, o, s);
    case OpRemoveStage(s) => if s.uid in c.states { RemoveLater(c, c.states[s.uid].stage); }
    case OpAddWorker(w) =>
    case OpUpdateWorker(_, w) =>
    case OpRemoveWorker(w) =>
  }

  // ---- Whole runs ------------------------------------------------------------------------------

  datatype Event = Do(op: Op) | Take(names: seq<string>, listing: seq<string>)

  /** Callers respect Allowed; a refresh ranges over its map in any order and gets the tree's listing. */
  ghost predicate Runnable(c: Cache, s: Snapshot, es: seq<Event>)
    decreases |es|
  {
    es == [] ||
    match es[0]
    case Do(op) => Allowed(c, op) && Runnable(Step(c, op).0, s, es[1..])
    case Take(names, listing) =>
      && Enumerates(names, Updated(c, s).Keys) && Enumerates(listing, c.zoneOf.Keys)
      && Runnable(c, Refresh(c, s, names, listing).0, es[1..])
  }

  ghost function Run(c: Cache, s: Snapshot, es: seq<Event>): (Cache, Snapshot)
    requires Runnable(c, s, es)
    decreases |es|
  {
    if es == [] then (c, s)
    else match es[0]
    case Do(op) => Run(Step(c, op).0, s, es[1..])
    case Take(names, listing) => Run(c, Refresh(c, s, names, listing).0, es[1..])
  }

  /** Every refresh of the run met a reliable state. */
  ghost predicate AlwaysReliable(c: Cache, s: Snapshot, es: seq<Event>)
    requires Runnable(c, s, es)
    decreases |es|
  {
    es == [] ||
    match es[0]
    case Do(op) => AlwaysReliable(Step(c, op).0, s, es[1..])
    case Take(names, listing) => Reliable(c, s) && AlwaysReliable(c, Refresh(c, s, names, listing).0, es[1..])
  }

  lemma {:induction false} RunKeeps(c: Cache, s: Snapshot, es: seq<Event>)
    requires Inv(c) && Runnable(c, s, es)
    ensures Inv(Run(c, s, es).0)
    ensures Past(c, s) && AlwaysReliable(c, s, es) ==> Past(Run(c, s, es).0, Run(c, s, es).1)
    decreases |es|
  {
    hide Inv, Allowed, Step, Refresh, Past, Reliable;
    if es != [] {
      match es[0]
      case Do(op) =>
        StepKeeps(c, op);
        StepLater(c, op);
        if Past(c, s) { LaterKeepsPast(c, Step(c, op).0, s); }
        RunKeeps(Step(c, op).0, s, es[1..]);
      case Take(names, listing) =>
        if Past(c, s) && Reliable(c, s) { RefreshIsFullRebuild(c, s, names, listing); }
        RunKeeps(c, Refresh(c, s, names, listing).0, es[1..]);
    }
  }

  /** After any run of cache operations and refreshes the cache is sound; and if the refreshes of the run
      met reliable states, the next one is right for every order of ranging exactly if it does too. */
  lemma AnyRunThenRefresh(es: seq<Event>, listing: seq<string>)
    requires Runnable(EMPTY, NEW_SNAPSHOT, es)
    requires Enumerates(listing, Run(EMPTY, NEW_SNAPSHOT, es).0.zoneOf.Keys)
    ensures Inv(Run(EMPTY, NEW_SNAPSHOT, es).0)
    ensures var (c, s) := Run(EMPTY, NEW_SNAPSHOT, es);
            AlwaysReliable(EMPTY, NEW_SNAPSHOT, es) ==>
              && Past(c, s)
              && ((forall names :: Enumerates(names, Updated(c, s).Keys) ==> RightFor(c, s, names, listing))
                  <==> Reliable(c, s))
  {
    NothingYet();
    hide Inv, Past, Run, AlwaysReliable, Refresh, Updated;
    RunKeeps(EMPTY, NEW_SNAPSHOT, es);
    var (c, s) := Run(EMPTY, NEW_SNAPSHOT, es);
    if AlwaysReliable(EMPTY, NEW_SNAPSHOT, es) { RefreshIsFullRebuildIff(c, s, listing); }
  }

  lemma NothingYet()
    ensures Inv(EMPTY) && Past(EMPTY, NEW_SNAPSHOT)
  {
  }

  /** Workers that bear their UID as Name: always reliable. */
  ghost predicate NamedByUid(c: Cache) {
    forall uid :: Live(c.infos, uid) ==> c.infos[uid].worker.value.name == uid
  }

  lemma NamedByUidIsReliable(c: Cache, s: Snapshot)
    requires Inv(c) && NamedByUid(c)
    ensures Reliable(c, s)
  {
  }

  // ---- A fleet named by UID ----------------------------------------------------------------------

  /** The workers that callers add or update bear their UID as Name. */
  predicate Named(op: Op) {
    match op
    case OpAddWorker(w) => w.name == w.uid
    case OpUpdateWorker(_, w) => w.name == w.uid
    case _ => true
  }

  ghost predicate AllNamed(es: seq<Event>) {
    forall i :: 0 <= i < |es| && es[i].Do? ==> Named(es[i].op)
  }

  /** An entry that changed kept its worker, or lost it, or is gone. */
  ghost predicate NoNewWorker(c: Cache, d: Cache) {
    forall uid :: Live(d.infos, uid) ==> Live(c.infos, uid) && d.infos[uid].worker == c.infos[uid].worker
  }

  lemma InsertNamed(c: Cache, s: Stage, a: bool)
    ensures NoNewWorker(c, Insert(c, s, a))
  {
    hide Without;
  }

  lemma RemoveNamed(c: Cache, s: Stage)
    ensures NoNewWorker(c, Remove(c, s).0)
  {
    hide Without, RemoveAt, Find;
  }

  lemma ReinsertNamed(c: Cache, o: Stage, s: Stage)
    ensures NoNewWorker(c, Reinsert(c, o, s).0)
  {
    hide Insert, Remove;
    RemoveNamed(c, o);
    InsertNamed(Remove(c, o).0, s, false);
  }

  lemma StepNamed(c: Cache, op: Op)
    requires NamedByUid(c) && Named(op)
    ensures NamedByUid(Step(c, op).0)
  {
    hide Insert, Remove, Reinsert, Without, ZoneKey;
    match op
    case OpAssumeStage(s) => InsertNamed(c, s, true);
    case OpFinishBinding(s) =>
    case OpForgetStage(s) => RemoveNamed(c, s);
    case OpAddStage(s) =>
      InsertNamed(c, s, false);
      if s.uid in c.states { ReinsertNamed(c, c.states[s.uid].stage, s); }
    case OpUpdateStage(o, s) => ReinsertNamed(c, o, s);
    case OpRemoveStage(s) => if s.uid in c.states { RemoveNamed(c, c.states[s.uid].stage); }
    case OpAddWorker(w) =>
    case OpUpdateWorker(_, w) =>
    case OpRemoveWorker(w) =>
  }

  /** Every refresh of the run gives the full rebuild, without error. */
  ghost predicate AlwaysRight(c: Cache, s: Snapshot, es: seq<Event>)
    requires Inv(c) && Runnable(c, s, es)
    decreases |es|
  {
    es == [] ||
    match es[0]
    case Do(op) => StepKeeps(c, op); AlwaysRight(Step(c, op).0, s, es[1..])
    case Take(names, listing) =>
      RightFor(c, s, names, listing) && AlwaysRight(c, Refresh(c, s, names, listing).0, es[1..])
  }

  lemma {:induction false} NamedRunKeeps(c: Cache, s: Snapshot, es: seq<Event>)
    requires Inv(c) && Past(c, s) && NamedByUid(c) && AllNamed(es) && Runnable(c, s, es)
    ensures AlwaysReliable(c, s, es) && AlwaysRight(c, s, es)
    decreases |es|
  {
    hide Inv, Allowed, Step, Refresh, Past, Reliable, NamedByUid, Named, Correct;
    if es != [] {
      assert forall i :: 0 <= i < |es| - 1 ==> es[1..][i] == es[i + 1];
      match es[0]
      case Do(op) =>
        StepKeeps(c, op);
        StepLater(c, op);
        LaterKeepsPast(c, Step(c, op).0, s);
        StepNamed(c, op);
        NamedRunKeeps(Step(c, op).0, s, es[1..]);
      case Take(names, listing) =>
        NamedByUidIsReliable(c, s);
        RefreshIsFullRebuild(c, s, names, listing);
        NamedRunKeeps(c, Refresh(c, s, names, listing).0, es[1..]);
    }
  }

  /** In every run of a fleet whose workers bear their UID as Name, nothing else being asked of the states
      it passes through, every refresh returns no error and leaves the full rebuild. */
  lemma NamedFleetIsAlwaysRight(es: seq<Event>)
    requires Runnable(EMPTY, NEW_SNAPSHOT, es) && AllNamed(es)
    ensures Inv(EMPTY) && AlwaysReliable(EMPTY, NEW_SNAPSHOT, es) && AlwaysRight(EMPTY, NEW_SNAPSHOT, es)
  {
    NothingYet();
    assert NamedByUid(EMPTY);
    hide Inv, Past, AllNamed, Runnable, AlwaysReliable, AlwaysRight;
    NamedRunKeeps(EMPTY, NEW_SNAPSHOT, es);
  }

  // ---- The fleet as it registers -----------------------------------------------------------------

  const WORKER_1 := Worker("1", "worker-1", map[])
  const WORKER_2 := Worker("2", "worker-2", map[])
  const INFO_1 := WorkerInfo(Some(WORKER_1), [], 2)
  const INFO_2 := WorkerInfo(Some(WORKER_2), [], 4)

  /** The workers of this system register as "worker-" + UID. After two are added, a refresh, and the
      removal of the second, the next refresh can throw out the one that still lives. */
  lemma RegisteredWorkersLoseAnEntry(es: seq<Event>)
    requires var both := ["worker-1", "worker-2"];
             es == [Do(OpAddWorker(WORKER_1)), Do(OpAddWorker(WORKER_2)), Take(both, both),
                    Do(OpRemoveWorker(WORKER_2))]
    ensures Runnable(EMPTY, NEW_SNAPSHOT, es)
    ensures var (c, s) := Run(EMPTY, NEW_SNAPSHOT, es);
            && Live(c.infos, "1") && !Live(c.infos, "2")
            && Enumerates(["worker-1", "worker-2"], Updated(c, s).Keys) && Enumerates(["worker-1"], c.zoneOf.Keys)
            && Refresh(c, s, ["worker-1", "worker-2"], ["worker-1"]).0.infos == map["worker-2" := INFO_2]
            && !Refresh(c, s, ["worker-1", "worker-2"], ["worker-1"]).1
  {
    hide Allowed, Step, Refresh, Updated, Runnable, Run;
    var both := ["worker-1", "worker-2"];
    var c1, c2, c3, s3 := LosingStates();
    RunNothing(c3, s3);
    RunDo(c2, s3, OpRemoveWorker(WORKER_2), []);
    assert [es[3]] == [Do(OpRemoveWorker(WORKER_2))] + [];
    RunTake(c2, NEW_SNAPSHOT, both, both, [es[3]]);
    assert [es[2], es[3]] == [Take(both, both)] + [es[3]];
    RunDo(c1, NEW_SNAPSHOT, OpAddWorker(WORKER_2), [es[2], es[3]]);
    assert [es[1], es[2], es[3]] == [Do(OpAddWorker(WORKER_2))] + [es[2], es[3]];
    RunDo(EMPTY, NEW_SNAPSHOT, OpAddWorker(WORKER_1), [es[1], es[2], es[3]]);
    assert es == [es[0]] + [es[1], es[2], es[3]];
    LosingRefresh(c3, s3);
  }

  lemma RunNothing(c: Cache, s: Snapshot)
    ensures Runnable(c, s, []) && Run(c, s, []) == (c, s)
  {
  }

  lemma RunDo(c: Cache, s: Snapshot, op: Op, rest: seq<Event>)
    requires Allowed(c, op) && Runnable(Step(c, op).0, s, rest)
    ensures Runnable(c, s, [Do(op)] + rest) && Run(c, s, [Do(op)] + rest) == Run(Step(c, op).0, s, rest)
  {
    assert ([Do(op)] + rest)[1..] == rest;
  }

  lemma RunTake(c: Cache, s: Snapshot, names: seq<string>, listing: seq<string>, rest: seq<Event>)
    requires Enumerates(names, Updated(c, s).Keys) && Enumerates(listing, c.zoneOf.Keys)
    requires Runnable(c, Refresh(c, s, names, listing).0, rest)
    ensures Runnable(c, s, [Take(names, listing)] + rest)
    ensures Run(c, s, [Take(names, listing)] + rest) == Run(c, Refresh(c, s, names, listing).0, rest)
  {
    assert ([Take(names, listing)] + rest)[1..] == rest;
  }

  lemma LosingStates() returns (c1: Cache, c2: Cache, c3: Cache, s3: Snapshot)
    ensures var both := ["worker-1", "worker-2"];
            && Allowed(EMPTY, OpAddWorker(WORKER_1)) && c1 == Step(EMPTY, OpAddWorker(WORKER_1)).0
            && Allowed(c1, OpAddWorker(WORKER_2)) && c2 == Step(c1, OpAddWorker(WORKER_2)).0
            && Enumerates(both, Updated(c2, NEW_SNAPSHOT).Keys) && Enumerates(both, c2.zoneOf.Keys)
            && s3 == Refresh(c2, NEW_SNAPSHOT, both, both).0
            && Allowed(c2, OpRemoveWorker(WORKER_2)) && c3 == Step(c2, OpRemoveWorker(WORKER_2)).0
    ensures c3 == Cache(["1"], map["1" := INFO_1], map[], {}, map["worker-1" := ""], map["worker-1" := "1"], 5)
    ensures s3 == Snapshot(map["worker-1" := INFO_1, "worker-2" := INFO_2], ["worker-1", "worker-2"], 4)
  {
    c1 := AddFirst();
    c2 := AddSecond(c1);
    s3 := FirstRefresh(c2);
    c3 := RemoveSecond(c2);
  }

  lemma NoZone()
    ensures ZoneKey(WORKER_1) == "" && ZoneKey(WORKER_2) == ""
  {
  }

  lemma AddFirst() returns (c1: Cache)
    ensures Allowed(EMPTY, OpAddWorker(WORKER_1)) && c1 == Step(EMPTY, OpAddWorker(WORKER_1)).0
    ensures c1 == Cache(["1"], map["1" := INFO_1], map[], {}, map["worker-1" := ""], map["worker-1" := "1"], 2)
  {
    NoZone();
    hide ZoneKey;
    c1 := Step(EMPTY, OpAddWorker(WORKER_1)).0;
    assert Without([], "1") == [];
  }

  lemma AddSecond(c1: Cache) returns (c2: Cache)
    requires c1 == Cache(["1"], map["1" := INFO_1], map[], {}, map["worker-1" := ""], map["worker-1" := "1"], 2)
    ensures Allowed(c1, OpAddWorker(WORKER_2)) && c2 == Step(c1, OpAddWorker(WORKER_2)).0
    ensures c2 == Cache(["2", "1"], map["1" := INFO_1, "2" := INFO_2], map[], {},
                        map["worker-1" := "", "worker-2" := ""], map["worker-1" := "1", "worker-2" := "2"], 4)
  {
    NoZone();
    hide ZoneKey;
    c2 := Step(c1, OpAddWorker(WORKER_2)).0;
    assert IndexOf(["1"], "2") == 1;
    assert Without(["1"], "2") == ["1"];
  }

  lemma FirstRefresh(c2: Cache) returns (s3: Snapshot)
    requires c2 == Cache(["2", "1"], map["1" := INFO_1, "2" := INFO_2], map[], {},
                         map["worker-1" := "", "worker-2" := ""], map["worker-1" := "1", "worker-2" := "2"], 4)
    ensures var both := ["worker-1", "worker-2"];
            && Enumerates(both, Updated(c2, NEW_SNAPSHOT).Keys) && Enumerates(both, c2.zoneOf.Keys)
            && s3 == Refresh(c2, NEW_SNAPSHOT, both, both).0
    ensures s3 == Snapshot(map["worker-1" := INFO_1, "worker-2" := INFO_2], ["worker-1", "worker-2"], 4)
  {
    hide Walk, Updated, Rebuild;
    var both := ["worker-1", "worker-2"];
    s3 := Refresh(c2, NEW_SNAPSHOT, both, both).0;
    FirstWalk(c2);
    var m := Updated(c2, NEW_SNAPSHOT);
    RebuildAll(both, m);
    assert m.Keys == {"worker-1", "worker-2"} == c2.zoneOf.Keys;
  }

  lemma FirstWalk(c2: Cache)
    requires c2.order == ["2", "1"] && c2.infos == map["1" := INFO_1, "2" := INFO_2]
    ensures Updated(c2, NEW_SNAPSHOT) == map["worker-1" := INFO_1, "worker-2" := INFO_2]
  {
    var m := map["worker-1" := INFO_1, "worker-2" := INFO_2];
    assert c2.order[1..] == ["1"] && ["1"][1..] == [];
    assert Walk([], c2.infos, 0, m) == m;
    assert Store(Store(map[], INFO_2), INFO_1) == m;
    assert Walk(["1"], c2.infos, 0, Store(map[], INFO_2)) == m;
  }

  lemma RemoveSecond(c2: Cache) returns (c3: Cache)
    requires c2 == Cache(["2", "1"], map["1" := INFO_1, "2" := INFO_2], map[], {},
                         map["worker-1" := "", "worker-2" := ""], map["worker-1" := "1", "worker-2" := "2"], 4)
    ensures Allowed(c2, OpRemoveWorker(WORKER_2)) && c3 == Step(c2, OpRemoveWorker(WORKER_2)).0
    ensures c3 == Cache(["1"], map["1" := INFO_1], map[], {}, map["worker-1" := ""], map["worker-1" := "1"], 5)
  {
    NoZone();
    hide ZoneKey;
    c3 := Step(c2, OpRemoveWorker(WORKER_2)).0;
    assert IndexOf(["2", "1"], "2") == 0;
    assert Without(["2", "1"], "2") == ["1"];
    assert c2.infos - {"2"} == map["1" := INFO_1];
    assert c2.zoneOf - {"worker-2"} == map["worker-1" := ""];
    assert c2.owner - {"worker-2"} == map["worker-1" := "1"];
  }

  lemma LosingRefresh(c: Cache, s: Snapshot)
    requires c == Cache(["1"], map["1" := INFO_1], map[], {}, map["worker-1" := ""], map["worker-1" := "1"], 5)
    requires s == Snapshot(map["worker-1" := INFO_1, "worker-2" := INFO_2], ["worker-1", "worker-2"], 4)
    ensures Updated(c, s) == s.infos
    ensures Enumerates(["worker-1", "worker-2"], Updated(c, s).Keys) && Enumerates(["worker-1"], c.zoneOf.Keys)
    ensures Refresh(c, s, ["worker-1", "worker-2"], ["worker-1"]).0.infos == map["worker-2" := INFO_2]
    ensures !Refresh(c, s, ["worker-1", "worker-2"], ["worker-1"]).1
  {
    var names := ["worker-1", "worker-2"];
    assert names[1..] == ["worker-2"];
    assert s.infos.Keys == {"worker-1", "worker-2"};
    assert |s.infos.Keys| == 2 && |c.zoneOf.Keys| == 1;
    assert s.infos - {"worker-1"} == map["worker-2" := INFO_2];
    assert Deletable(c.infos, "worker-1");
    assert DeleteStale(c.infos, ["worker-2"], 0, map["worker-2" := INFO_2]) == map["worker-2" := INFO_2];
    assert DeleteStale(c.infos, names, 1, s.infos) == map["worker-2" := INFO_2];
    assert Rebuild(["worker-1"], map["worker-2" := INFO_2]) == [];
  }
}
