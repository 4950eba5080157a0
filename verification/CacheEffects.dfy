/** The scheduler cache as its callers see it: what becomes of a stage, its worker's list and its flags. */
module CacheEffects {
  import opened Common
  import opened WorkerTree
  import opened CacheSpec

  function StagesOn(c: Cache, uid: string): seq<Stage> {
    if uid in c.infos then c.infos[uid].stages else []
  }

  function WorkerOf(c: Cache, uid: string): Option<Worker> {
    if uid in c.infos then c.infos[uid].worker else None
  }

  /** Nothing about the workers themselves changes, and no list but that of `uid`. */
  ghost predicate OnlyList(c: Cache, d: Cache, uid: string) {
    && (forall u :: WorkerOf(d, u) == WorkerOf(c, u))
    && (forall u :: u != uid ==> StagesOn(d, u) == StagesOn(c, u))
    && d.zoneOf == c.zoneOf && d.owner == c.owner
  }

  ghost predicate SameLists(c: Cache, d: Cache) {
    && (forall u :: WorkerOf(d, u) == WorkerOf(c, u) && StagesOn(d, u) == StagesOn(c, u))
    && d.zoneOf == c.zoneOf && d.owner == c.owner
  }

  /** The list of `uid` loses exactly the stage with this key. */
  ghost predicate Loses(c: Cache, d: Cache, uid: string, key: string) {
    && |StagesOn(d, uid)| == |StagesOn(c, uid)| - 1
    && (forall t :: t in StagesOn(d, uid) <==> t in StagesOn(c, uid) && t.uid != key)
  }

  // ---- The two building blocks -------------------------------------------------------------------

  lemma InsertEffect(c: Cache, s: Stage, a: bool)
    ensures var d := Insert(c, s, a);
            && StagesOn(d, s.workerUid) == StagesOn(c, s.workerUid) + [s] && OnlyList(c, d, s.workerUid)
            && d.states == c.states[s.uid := StageState(s, false)]
            && d.assumed == (if a then c.assumed + {s.uid} else c.assumed)
  {
    hide Without;
  }

  lemma RemoveEffect(c: Cache, s: Stage)
    requires Inv(c) && Names(c, s)
    ensures var (d, r) := Remove(c, s);
            && r == Ok && Loses(c, d, s.workerUid, s.uid) && OnlyList(c, d, s.workerUid)
            && d.states == c.states - {s.uid} && d.assumed == c.assumed - {s.uid}
  {
    hide Inv, Names, Remove, Detach, RemoveAt, Find, Holds, DistinctKeys, StagesOn, WorkerOf;
    NamedListed(c, s);
    RemoveIsDetach(c, s);
    DetachEffect(c, s);
    SameInfos(Detach(c, s), Remove(c, s).0);
    var stages := StagesOn(c, s.workerUid);
    ListedKey(c, s);
    TakenOut(stages, Find(stages, s.uid));
  }

  lemma RemoveIsDetach(c: Cache, s: Stage)
    requires Holds(c, s)
    ensures var m := Detach(c, s);
            Remove(c, s) == (m.(states := m.states - {s.uid}, assumed := m.assumed - {s.uid}), Ok)
  {
    hide Detach, Find;
  }

  lemma SameInfos(c: Cache, d: Cache)
    requires d.infos == c.infos && d.zoneOf == c.zoneOf && d.owner == c.owner
    ensures SameLists(c, d)
  {
  }

  lemma ListedKey(c: Cache, s: Stage)
    requires Holds(c, s)
    ensures var stages, i := StagesOn(c, s.workerUid), Find(StagesOn(c, s.workerUid), s.uid);
            i < |stages| && stages[i].uid == s.uid && stages == c.infos[s.workerUid].stages
  {
  }

  lemma NamedListed(c: Cache, s: Stage)
    requires Inv(c) && Names(c, s)
    ensures s.workerUid in c.infos && Holds(c, s) && DistinctKeys(c.infos[s.workerUid].stages)
  {
    NamedHeld(c, s);
    assert ListOk(c.infos[s.workerUid].stages, s.workerUid, c.states);
  }

  lemma DetachEffect(c: Cache, s: Stage)
    requires Holds(c, s)
    ensures var d := Detach(c, s);
            && StagesOn(d, s.workerUid) == RemoveAt(StagesOn(c, s.workerUid), Find(StagesOn(c, s.workerUid), s.uid))
            && OnlyList(c, d, s.workerUid) && d.states == c.states && d.assumed == c.assumed
  {
    hide Without, RemoveAt, Find;
  }

  lemma TakenOut(stages: seq<Stage>, i: nat)
    requires DistinctKeys(stages) && i < |stages|
    ensures |RemoveAt(stages, i)| == |stages| - 1
    ensures forall t :: t in RemoveAt(stages, i) <==> t in stages && t.uid != stages[i].uid
  {
    var n := |stages| - 1;
    var r := RemoveAt(stages, i);
    forall t ensures t in r <==> t in stages && t.uid != stages[i].uid {
      if t in stages && t.uid != stages[i].uid {
        var j :| 0 <= j < |stages| && stages[j] == t;
        assert r[if j == n then i else j] == t;
      }
      if t in r {
        var j :| 0 <= j < |r| && r[j] == t;
        assert t == stages[if j == i then n else j];
      }
    }
  }

  // ---- Stages ------------------------------------------------------------------------------------

  /** Exactly a keyed, uncached stage is assumed. */
  lemma AssumeEffect(c: Cache, s: Stage)
    ensures var (d, r) := AssumeStage(c, s);
            && (r == Ok <==> s.uid != "" && s.uid !in c.states)
            && (r != Ok ==> r == Err && d == c)
            && (r == Ok ==>
                 && d.states == c.states[s.uid := StageState(s, false)] && d.assumed == c.assumed + {s.uid}
                 && StagesOn(d, s.workerUid) == StagesOn(c, s.workerUid) + [s] && OnlyList(c, d, s.workerUid))
  {
    InsertEffect(c, s, true);
  }

  /** Exactly a cached, assumed stage is marked; no stage, list or worker changes. */
  lemma FinishEffect(c: Cache, s: Stage)
    requires Inv(c)
    ensures var (d, r) := FinishBinding(c, s);
            && r == (if s.uid == "" then Err else Ok)
            && d.infos == c.infos && d.assumed == c.assumed && SameLists(c, d)
            && d.states == if s.uid in c.states && s.uid in c.assumed
                           then c.states[s.uid := StageState(c.states[s.uid].stage, true)] else c.states
  {
    if s.uid in c.states { KeysAgree(c, s.uid); }
  }

  /** Exactly an assumed stage is forgotten, and only through the worker it was assumed on. */
  lemma ForgetEffect(c: Cache, s: Stage)
    requires Inv(c)
    ensures var (d, r) := ForgetStage(c, s);
            && (r == Ok <==> s.uid in c.states && s.uid in c.assumed && c.states[s.uid].stage.workerUid == s.workerUid)
            && (r != Ok ==> r == Err && d == c)
            && (r == Ok ==>
                 && d.states == c.states - {s.uid} && d.assumed == c.assumed - {s.uid}
                 && Loses(c, d, s.workerUid, s.uid) && OnlyList(c, d, s.workerUid))
  {
    if s.uid in c.states { KeysAgree(c, s.uid); }
    if s.uid in c.states && s.uid in c.assumed && c.states[s.uid].stage.workerUid == s.workerUid {
      hide Inv, Remove;
      RemoveEffect(c, s);
    }
  }

  /** Refused exactly for a keyless or already added stage. Then the cache holds it and it is not assumed;
      a confirmation leaves the lists, a change of worker moves it, and a new stage joins its list. */
  lemma AddEffect(c: Cache, s: Stage)
    requires Inv(c)
    ensures var (d, r) := AddStage(c, s);
            && (r == Ok <==> s.uid != "" && (s.uid in c.states ==> s.uid in c.assumed))
            && (r != Ok ==> r == Err && d == c)
            && (r == Ok ==> d.assumed == c.assumed - {s.uid})
            && (r == Ok && s.uid !in c.states ==>
                 && d.states == c.states[s.uid := StageState(s, false)]
                 && StagesOn(d, s.workerUid) == StagesOn(c, s.workerUid) + [s] && OnlyList(c, d, s.workerUid))
            && (r == Ok && s.uid in c.states && c.states[s.uid].stage.workerUid == s.workerUid ==>
                 && d.states == c.states[s.uid := StageState(s, c.states[s.uid].bindingFinished)] && d.infos == c.infos
                 && SameLists(c, d))
            && (r == Ok && s.uid in c.states && c.states[s.uid].stage.workerUid != s.workerUid ==>
                 && d.states == c.states[s.uid := StageState(s, false)]
                 && Moves(c, d, c.states[s.uid].stage.workerUid, s))
  {
    hide Remove, Insert;
    if s.uid in c.states { KeysAgree(c, s.uid); }
    if s.uid in c.states && s.uid in c.assumed {
      if c.states[s.uid].stage.workerUid != s.workerUid {
        ReinsertEffect(c, c.states[s.uid].stage, s);
      }
    } else if s.uid !in c.states {
      NotAssumed(c, s.uid);
      InsertEffect(c, s, false);
    }
  }

  lemma NotAssumed(c: Cache, key: string)
    requires Inv(c) && key !in c.states
    ensures key !in c.assumed && c.assumed - {key} == c.assumed
  {
  }

  /** The stage leaves one list and joins the end of another, which may be the same. */
  ghost predicate Moves(c: Cache, d: Cache, from: string, s: Stage) {
    && (forall u :: WorkerOf(d, u) == WorkerOf(c, u)) && d.zoneOf == c.zoneOf && d.owner == c.owner
    && (forall u :: u != from && u != s.workerUid ==> StagesOn(d, u) == StagesOn(c, u))
    && (from != s.workerUid ==> Loses(c, d, from, s.uid) && StagesOn(d, s.workerUid) == StagesOn(c, s.workerUid) + [s])
    && (from == s.workerUid ==>
          && |StagesOn(d, from)| == |StagesOn(c, from)| > 0 && StagesOn(d, from)[|StagesOn(d, from)| - 1] == s
          && forall t :: t in StagesOn(d, from) <==> t == s || (t in StagesOn(c, from) && t.uid != s.uid))
  }

  lemma ReinsertEffect(c: Cache, o: Stage, s: Stage)
    requires Inv(c) && Names(c, o) && o.uid == s.uid && s.uid != ""
    ensures var (d, r) := Reinsert(c, o, s);
            && r == Ok && d.states == c.states[s.uid := StageState(s, false)] && d.assumed == c.assumed - {s.uid}
            && Moves(c, d, o.workerUid, s)
  {
    hide Inv, Remove, Insert, Names;
    RemoveEffect(c, o);
    var m := Remove(c, o).0;
    InsertEffect(m, s, false);
    var d := Insert(m, s, false);
    assert d.states == c.states[s.uid := StageState(s, false)];
    MovedBoth(c, m, d, o.workerUid, s);
  }

  lemma MovedBoth(c: Cache, m: Cache, d: Cache, from: string, s: Stage)
    requires Loses(c, m, from, s.uid) && OnlyList(c, m, from)
    requires StagesOn(d, s.workerUid) == StagesOn(m, s.workerUid) + [s] && OnlyList(m, d, s.workerUid)
    ensures Moves(c, d, from, s)
  {
    hide StagesOn, WorkerOf;
  }

  /** Only an added stage is updated, and only on its worker, where it goes to the end of the list. */
  lemma UpdateEffect(c: Cache, o: Stage, s: Stage)
    requires Inv(c) && Allowed(c, OpUpdateStage(o, s))
    ensures var (d, r) := UpdateStage(c, o, s);
            && (s.uid !in c.states || s.uid in c.assumed ==> r == Err)
            && (s.uid in c.states && s.uid !in c.assumed ==>
                  r == if c.states[s.uid].stage.workerUid == s.workerUid then Ok else Fatal)
            && (r != Ok ==> d == c)
            && (r == Ok ==>
                 && d.states == c.states[s.uid := StageState(s, false)] && d.assumed == c.assumed
                 && Moves(c, d, s.workerUid, s))
  {
    hide Inv, Reinsert, Moves;
    if o.uid in c.states {
      KeysAgree(c, o.uid);
      if o.uid !in c.assumed && c.states[o.uid].stage.workerUid == s.workerUid {
        ReinsertEffect(c, o, s);
        assert c.assumed - {s.uid} == c.assumed;
      }
    }
  }

  /** A cached stage is removed, whatever the caller knows of its worker, unless it names another. */
  lemma RemoveStageEffect(c: Cache, s: Stage)
    requires Inv(c)
    ensures var (d, r) := RemoveStage(c, s);
            && (s.uid !in c.states ==> r == Err)
            && (s.uid in c.states ==>
                 r == if s.workerUid == "" || s.workerUid == c.states[s.uid].stage.workerUid then Ok else Fatal)
            && (r != Ok ==> d == c)
            && (r == Ok ==>
                 && d.states == c.states - {s.uid} && d.assumed == c.assumed - {s.uid}
                 && Loses(c, d, c.states[s.uid].stage.workerUid, s.uid)
                 && OnlyList(c, d, c.states[s.uid].stage.workerUid))
  {
    if s.uid in c.states {
      KeysAgree(c, s.uid);
      hide Inv, Remove;
      RemoveEffect(c, c.states[s.uid].stage);
    }
  }

  // ---- Laws --------------------------------------------------------------------------------------

  /** A binding that fails is undone. */
  lemma AssumeThenForget(c: Cache, s: Stage)
    requires Inv(c) && AssumeStage(c, s).1 == Ok
    ensures var (d, r) := ForgetStage(AssumeStage(c, s).0, s);
            && r == Ok && d.states == c.states && d.assumed == c.assumed
            && OnlyList(c, d, s.workerUid) && |StagesOn(d, s.workerUid)| == |StagesOn(c, s.workerUid)|
            && (forall t :: t in StagesOn(d, s.workerUid) <==> t in StagesOn(c, s.workerUid))
  {
    hide Inv, AssumeStage, ForgetStage, StagesOn, WorkerOf;
    var m := AssumeStage(c, s).0;
    AssumeEffect(c, s);
    NotAssumed(c, s.uid);
    NotListed(c, s);
    AssumedIsSound(c, s);
    ForgetEffect(m, s);
    assert m.states - {s.uid} == c.states;
    assert m.assumed - {s.uid} == c.assumed;
  }

  lemma AssumedIsSound(c: Cache, s: Stage)
    requires Inv(c)
    ensures Inv(AssumeStage(c, s).0)
  {
    StepKeeps(c, OpAssumeStage(s));
  }

  lemma NotListed(c: Cache, s: Stage)
    requires Inv(c) && s.uid !in c.states
    ensures forall t :: t in StagesOn(c, s.workerUid) ==> t.uid != s.uid
  {
    if s.workerUid in c.infos {
      assert ListOk(c.infos[s.workerUid].stages, s.workerUid, c.states);
    }
  }

  /** The watch's add confirms an assumed stage. */
  lemma AssumeThenAdd(c: Cache, s: Stage)
    requires Inv(c) && AssumeStage(c, s).1 == Ok
    ensures var m := AssumeStage(c, s).0;
            var (d, r) := AddStage(m, s);
            && r == Ok && s.uid !in d.assumed && s.uid in d.states && d.states[s.uid].stage == s && SameLists(m, d)
  {
    hide Inv, AssumeStage, AddStage, StagesOn, WorkerOf;
    AssumeEffect(c, s);
    AssumedIsSound(c, s);
    AddEffect(AssumeStage(c, s).0, s);
  }

  // ---- Workers -----------------------------------------------------------------------------------

  /** AddWorker and UpdateWorker: the entry has this worker now, and its stages still. */
  lemma SetWorkerEffect(c: Cache, w: Worker)
    ensures var d := SetWorker(c, w);
            && WorkerOf(d, w.uid) == Some(w) && (forall u :: u != w.uid ==> WorkerOf(d, u) == WorkerOf(c, u))
            && (forall u :: StagesOn(d, u) == StagesOn(c, u))
            && d.states == c.states && d.assumed == c.assumed
            && d.zoneOf == c.zoneOf[w.name := ZoneKey(w)] && d.owner == c.owner[w.name := w.uid]
            && d.order != [] && d.order[0] == w.uid
  {
    hide Without, ZoneKey;
  }

  /** RemoveWorker: the worker is gone, its stages stay listed until they are removed themselves, and with
      none the entry is gone too; the tree loses the name if it has it in the worker's zone. */
  lemma RemoveWorkerEffect(c: Cache, w: Worker)
    ensures var (d, r) := RemoveWorker(c, w);
            && (w.uid !in c.infos ==> r == Err && d == c)
            && WorkerOf(d, w.uid) == None && (forall u :: u != w.uid ==> WorkerOf(d, u) == WorkerOf(c, u))
            && (forall u :: StagesOn(d, u) == StagesOn(c, u))
            && (w.uid in d.infos <==> StagesOn(c, w.uid) != [] && w.uid in c.infos)
            && d.states == c.states && d.assumed == c.assumed
            && (w.uid in c.infos ==>
                 var listed := w.name in c.zoneOf && c.zoneOf[w.name] == ZoneKey(w);
                 && r == (if listed then Ok else Err)
                 && d.zoneOf == (if listed then c.zoneOf - {w.name} else c.zoneOf)
                 && d.owner == if listed then c.owner - {w.name} else c.owner)
  {
    hide Without, ZoneKey;
  }
}
