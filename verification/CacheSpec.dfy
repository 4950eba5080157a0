/** pkg/scheduler/cache as a state machine on values: what each lock-protected method does to the
    cache's contents, and the invariant that all of them keep. */
module CacheSpec {
  import opened Common
  import opened WorkerTree

  datatype Stage = Stage(uid: string, workerUid: string, payload: string)

  /** framework.WorkerInfo: the worker may be unknown while stages are already assigned to it. */
  datatype WorkerInfo = WorkerInfo(worker: Option<Worker>, stages: seq<Stage>, generation: int)

  datatype StageState = StageState(stage: Stage, bindingFinished: bool)

  /** order: worker UIDs from headWorker on; zoneOf: the worker tree; owner: which live worker bears
      which name; gen: the global generation counter. */
  datatype Cache = Cache(
    order: seq<string>, infos: map<string, WorkerInfo>,
    states: map<string, StageState>, assumed: set<string>,
    zoneOf: map<string, string>, owner: map<string, string>, gen: int)

  const EMPTY := Cache([], map[], map[], {}, map[], map[], 0)

  /** Fatal is os.Exit(1). */
  datatype Outcome = Ok | Err | Fatal

  // ---- WorkerInfo -----------------------------------------------------------------------------

  /** The position RemoveStage deletes at, or the length if the key is not there. */
  function Find(stages: seq<Stage>, key: string): (i: nat)
    ensures i <= |stages| && (i < |stages| ==> stages[i].uid == key)
    ensures forall j :: 0 <= j < i ==> stages[j].uid != key
  {
    if stages == [] then 0
    else if stages[0].uid == key then 0
    else 1 + Find(stages[1..], key)
  }

  /** The last stage takes the place of the deleted one. */
  function RemoveAt(stages: seq<Stage>, i: nat): (r: seq<Stage>)
    requires i < |stages|
  {
    stages[i := stages[|stages| - 1]][..|stages| - 1]
  }

  // ---- The list -------------------------------------------------------------------------------

  function IndexOf(order: seq<string>, uid: string): (i: nat)
    ensures i <= |order| && (i < |order| ==> order[i] == uid)
    ensures i == |order| <==> uid !in order
  {
    if order == [] then 0
    else if order[0] == uid then 0
    else 1 + IndexOf(order[1..], uid)
  }

  function Without(order: seq<string>, uid: string): seq<string> {
    var i := IndexOf(order, uid);
    if i == |order| then order else order[..i] + order[i + 1..]
  }

  /** moveWorkerInfoToHead after the entry was changed. */
  function Touch(c: Cache, uid: string, info: WorkerInfo): Cache {
    c.(infos := c.infos[uid := info], order := [uid] + Without(c.order, uid))
  }

  function Drop(c: Cache, uid: string): Cache {
    c.(infos := c.infos - {uid}, order := Without(c.order, uid))
  }

  /** The entry of a worker, made if missing (which draws a generation). */
  function Base(infos: Infos, gen: int, uid: string): WorkerInfo {
    if uid in infos then infos[uid] else WorkerInfo(None, [], gen + 1)
  }

  function BaseGen(infos: Infos, gen: int, uid: string): int {
    if uid in infos then gen else gen + 1
  }

  // ---- Stages ---------------------------------------------------------------------------------

  /** addStage. */
  function Insert(c: Cache, s: Stage, asAssumed: bool): Cache {
    var g := BaseGen(c.infos, c.gen, s.workerUid) + 1;
    var b := Base(c.infos, c.gen, s.workerUid);
    Touch(c, s.workerUid, b.(stages := b.stages + [s], generation := g)).(
      gen := g, states := c.states[s.uid := StageState(s, false)],
      assumed := if asAssumed then c.assumed + {s.uid} else c.assumed)
  }

  /** removeStage up to the two deletes from the stage maps. */
  function Detach(c: Cache, s: Stage): Cache
    requires s.workerUid in c.infos && Find(c.infos[s.workerUid].stages, s.uid) < |c.infos[s.workerUid].stages|
  {
    var info := c.infos[s.workerUid];
    var stages := RemoveAt(info.stages, Find(info.stages, s.uid));
    var c' := c.(gen := c.gen + 1);
    if stages == [] && info.worker.None? then Drop(c', s.workerUid)
    else Touch(c', s.workerUid, info.(stages := stages, generation := c.gen + 1))
  }

  predicate Holds(c: Cache, s: Stage) {
    s.workerUid in c.infos && Find(c.infos[s.workerUid].stages, s.uid) < |c.infos[s.workerUid].stages|
  }

  /** removeStage. The error case also dereferences the worker, so with no worker it crashes. */
  function Remove(c: Cache, s: Stage): (Cache, Outcome) {
    if s.workerUid in c.infos && !Holds(c, s) then
      (c, if c.infos[s.workerUid].worker.Some? then Err else Fatal)
    else
      var c' := if s.workerUid in c.infos then Detach(c, s) else c;
      (c'.(states := c'.states - {s.uid}, assumed := c'.assumed - {s.uid}), Ok)
  }

  function AssumeStage(c: Cache, s: Stage): (Cache, Outcome) {
    if s.uid == "" || s.uid in c.states then (c, Err) else (Insert(c, s, true), Ok)
  }

  function FinishBinding(c: Cache, s: Stage): (Cache, Outcome) {
    if s.uid == "" then (c, Err)
    else if s.uid in c.states && s.uid in c.assumed then
      (c.(states := c.states[s.uid := c.states[s.uid].(bindingFinished := true)]), Ok)
    else (c, Ok)
  }

  function ForgetStage(c: Cache, s: Stage): (Cache, Outcome) {
    if s.uid == "" then (c, Err)
    else if s.uid in c.states && c.states[s.uid].stage.workerUid != s.workerUid then (c, Err)
    else if s.uid in c.states && s.uid in c.assumed then Remove(c, s)
    else (c, Err)
  }

  /** updateStage. */
  function Reinsert(c: Cache, o: Stage, s: Stage): (Cache, Outcome) {
    var (c', r) := Remove(c, o);
    if r != Ok then (c', r)
    else if s.uid == "" then (c', Err)
    else (Insert(c', s, false), Ok)
  }

  /** An error of the inner update is only logged. */
  function AddStage(c: Cache, s: Stage): (Cache, Outcome) {
    if s.uid == "" then (c, Err)
    else if s.uid in c.states && s.uid in c.assumed then
      if c.states[s.uid].stage.workerUid != s.workerUid then
        var (c', r) := Reinsert(c, c.states[s.uid].stage, s);
        (c', if r == Fatal then Fatal else Ok)
      else
        (c.(assumed := c.assumed - {s.uid}, states := c.states[s.uid := c.states[s.uid].(stage := s)]), Ok)
    else if s.uid !in c.states then (Insert(c, s, false), Ok)
    else (c, Err)
  }

  function UpdateStage(c: Cache, o: Stage, s: Stage): (Cache, Outcome) {
    if o.uid == "" then (c, Err)
    else if o.uid in c.states && o.uid !in c.assumed then
      if c.states[o.uid].stage.workerUid != s.workerUid then (c, Fatal)
      else Reinsert(c, o, s)
    else (c, Err)
  }

  function RemoveStage(c: Cache, s: Stage): (Cache, Outcome) {
    if s.uid == "" || s.uid !in c.states then (c, Err)
    else if c.states[s.uid].stage.workerUid != s.workerUid && s.workerUid != "" then (c, Fatal)
    else Remove(c, c.states[s.uid].stage)
  }

  // ---- Workers --------------------------------------------------------------------------------

  /** moveWorkerInfoToHead, then SetWorker. */
  function SetWorker(c: Cache, w: Worker): Cache {
    var g := BaseGen(c.infos, c.gen, w.uid) + 1;
    Touch(c, w.uid, Base(c.infos, c.gen, w.uid).(worker := Some(w), generation := g)).(
      gen := g, zoneOf := c.zoneOf[w.name := ZoneKey(w)], owner := c.owner[w.name := w.uid])
  }

  function RemoveWorker(c: Cache, w: Worker): (Cache, Outcome) {
    if w.uid !in c.infos then (c, Err)
    else
      var info := c.infos[w.uid].(worker := None, generation := c.gen + 1);
      var c' := c.(gen := c.gen + 1);
      var c'' := if info.stages == [] then Drop(c', w.uid) else Touch(c', w.uid, info);
      if w.name in c.zoneOf && c.zoneOf[w.name] == ZoneKey(w) then
        (c''.(zoneOf := c.zoneOf - {w.name}, owner := c.owner - {w.name}), Ok)
      else (c'', Err)
  }

  // ---- The invariant --------------------------------------------------------------------------

  type Infos = map<string, WorkerInfo>
  type States = map<string, StageState>

  predicate Live(infos: Infos, uid: string) {
    uid in infos && infos[uid].worker.Some?
  }

  ghost predicate Descending(order: seq<string>, infos: Infos)
    requires forall k :: k in order ==> k in infos
  {
    forall i, j :: 0 <= i < j < |order| ==> infos[order[i]].generation > infos[order[j]].generation
  }

  /** The list holds each entry once, newest generation first. */
  ghost predicate Ordered(order: seq<string>, infos: Infos, gen: int) {
    && Enumerates(order, infos.Keys)
    && Descending(order, infos)
    && (forall uid :: uid in infos ==> 0 < infos[uid].generation <= gen)
    && 0 <= gen
  }

  predicate InStages(stages: seq<Stage>, key: string) {
    Find(stages, key) < |stages|
  }

  predicate Homed(states: States, key: string, uid: string) {
    key in states && states[key].stage.workerUid == uid
  }

  ghost predicate DistinctKeys(stages: seq<Stage>) {
    forall i, j :: 0 <= i < j < |stages| ==> stages[i].uid != stages[j].uid
  }

  /** The list of worker uid: no key twice, every stage cached as being on that worker. */
  ghost predicate ListOk(stages: seq<Stage>, uid: string, states: States) {
    DistinctKeys(stages) && forall i :: 0 <= i < |stages| ==> Homed(states, stages[i].uid, uid)
  }

  /** A cached stage is stored under its own key and is in the list of its worker. */
  predicate StateOk(infos: Infos, st: StageState, key: string) {
    && st.stage.uid == key && key != ""
    && st.stage.workerUid in infos && InStages(infos[st.stage.workerUid].stages, key)
  }

  /** Each stage key sits exactly once, in exactly the list of its own worker. */
  ghost predicate Assigned(infos: Infos, states: States, assumed: set<string>) {
    && assumed <= states.Keys
    && (forall uid :: uid in infos ==> ListOk(infos[uid].stages, uid, states))
    && (forall k :: k in states ==> StateOk(infos, states[k], k))
  }

  predicate Borne(w: Worker, uid: string, zoneOf: map<string, string>, owner: map<string, string>) {
    && w.uid == uid
    && w.name in owner && owner[w.name] == uid
    && w.name in zoneOf && zoneOf[w.name] == ZoneKey(w)
  }

  predicate InfoOk(info: WorkerInfo, uid: string, zoneOf: map<string, string>, owner: map<string, string>) {
    if info.worker.Some? then Borne(info.worker.value, uid, zoneOf, owner) else info.stages != []
  }

  /** The tree holds exactly the names of the live workers, each borne by one, in its zone; an entry
      without a worker has stages. */
  ghost predicate Rooted(infos: Infos, zoneOf: map<string, string>, owner: map<string, string>) {
    && zoneOf.Keys == owner.Keys
    && (forall n :: n in owner ==> Live(infos, owner[n]) && infos[owner[n]].worker.value.name == n)
    && (forall uid :: uid in infos ==> InfoOk(infos[uid], uid, zoneOf, owner))
  }

  ghost predicate Inv(c: Cache) {
    && Ordered(c.order, c.infos, c.gen)
    && Assigned(c.infos, c.states, c.assumed)
    && Rooted(c.infos, c.zoneOf, c.owner)
  }

  // ---- What callers must respect --------------------------------------------------------------

  datatype Op =
    | OpAssumeStage(stage: Stage)
    | OpFinishBinding(stage: Stage)
    | OpForgetStage(stage: Stage)
    | OpAddStage(stage: Stage)
    | OpUpdateStage(oldStage: Stage, newStage: Stage)
    | OpRemoveStage(stage: Stage)
    | OpAddWorker(worker: Worker)
    | OpUpdateWorker(oldWorker: Worker, newWorker: Worker)
    | OpRemoveWorker(worker: Worker)

  /** Two live workers do not share a name; a live worker keeps its name, and its zone unless it is
      updated through UpdateWorker, whose old worker is then in the zone known; an entry that only
      stages made is not updated before its worker is added; and the old stage of UpdateStage names
      the worker that the cache holds. */
  predicate Allowed(c: Cache, op: Op) {
    match op
    case OpUpdateStage(o, s) =>
      o.uid == s.uid && (o.uid in c.states ==> o.workerUid == c.states[o.uid].stage.workerUid)
    case OpAddWorker(w) =>
      && (w.name in c.owner ==> c.owner[w.name] == w.uid)
      && (Live(c.infos, w.uid) ==> SamePlace(c.infos[w.uid].worker.value, w))
    case OpUpdateWorker(o, w) =>
      && w.name == o.name
      && (if w.uid in c.infos then Live(c.infos, w.uid) && SamePlace(c.infos[w.uid].worker.value, o)
          else w.name !in c.owner)
    case OpRemoveWorker(w) =>
      && (Live(c.infos, w.uid) ==> SamePlace(c.infos[w.uid].worker.value, w))
      && (w.name in c.owner ==> c.owner[w.name] == w.uid)
    case _ => true
  }

  predicate SamePlace(v: Worker, w: Worker) {
    v.name == w.name && ZoneKey(v) == ZoneKey(w)
  }

  function Step(c: Cache, op: Op): (Cache, Outcome) {
    match op
    case OpAssumeStage(s) => AssumeStage(c, s)
    case OpFinishBinding(s) => FinishBinding(c, s)
    case OpForgetStage(s) => ForgetStage(c, s)
    case OpAddStage(s) => AddStage(c, s)
    case OpUpdateStage(o, s) => UpdateStage(c, o, s)
    case OpRemoveStage(s) => RemoveStage(c, s)
    case OpAddWorker(w) => (SetWorker(c, w), Ok)
    case OpUpdateWorker(_, w) => (SetWorker(c, w), Ok)
    case OpRemoveWorker(w) => RemoveWorker(c, w)
  }

  // ---- Proof: the list ------------------------------------------------------------------------

  lemma WithoutKeeps(order: seq<string>, keys: set<string>, uid: string)
    requires Enumerates(order, keys)
    ensures Enumerates(Without(order, uid), keys - {uid})
  {
  }

  lemma WithoutDescending(order: seq<string>, keys: set<string>, infos: Infos, uid: string)
    requires Enumerates(order, keys) && keys <= infos.Keys && Descending(order, infos)
    ensures forall k :: k in Without(order, uid) ==> k in infos
    ensures Descending(Without(order, uid), infos)
  {
    WithoutKeeps(order, keys, uid);
  }

  lemma SameGenerations(order: seq<string>, infos: Infos, infos': Infos)
    requires forall k :: k in order ==> k in infos && k in infos' && infos[k] == infos'[k]
    requires Descending(order, infos)
    ensures Descending(order, infos')
  {
  }

  lemma DropOrdered(order: seq<string>, infos: Infos, gen: int, uid: string, gen': int)
    requires Ordered(order, infos, gen) && uid in infos && gen' >= gen
    ensures Ordered(Without(order, uid), infos - {uid}, gen')
  {
    var rest := Without(order, uid);
    WithoutKeeps(order, infos.Keys, uid);
    WithoutDescending(order, infos.Keys, infos, uid);
    assert (infos - {uid}).Keys == infos.Keys - {uid};
    SameGenerations(rest, infos, infos - {uid});
  }

  /** An entry stamped with a fresh generation goes to the head and the list stays sorted. */
  lemma TouchOrdered(order: seq<string>, infos: Infos, gen: int, uid: string, info: WorkerInfo)
    requires Ordered(order, infos, gen) && info.generation > gen
    ensures Ordered([uid] + Without(order, uid), infos[uid := info], info.generation)
  {
    var infos' := infos[uid := info];
    var rest := Without(order, uid);
    WithoutKeeps(order, infos.Keys, uid);
    WithoutDescending(order, infos.Keys, infos, uid);
    hide Without, Descending;
    SameGenerations(rest, infos, infos');
    EnumerateInFront(rest, infos.Keys - {uid}, uid);
    assert infos'.Keys == (infos.Keys - {uid}) + {uid};
    assert forall k :: k in rest ==> k in infos.Keys - {uid};
    NewestInFront(rest, infos', uid);
  }

  lemma EnumerateInFront(rest: seq<string>, keys: set<string>, uid: string)
    requires Enumerates(rest, keys) && uid !in keys
    ensures Enumerates([uid] + rest, keys + {uid})
  {
  }

  lemma NewestInFront(rest: seq<string>, infos: Infos, uid: string)
    requires uid in infos && forall k :: k in rest ==> k in infos && infos[k].generation < infos[uid].generation
    requires Descending(rest, infos)
    ensures Descending([uid] + rest, infos)
  {
  }

  // ---- Proof: assignment of stages ------------------------------------------------------------

  /** The stages on other workers are cached as before. */
  ghost predicate SameElsewhere(states: States, states': States, uid: string) {
    && (forall k :: k in states && states[k].stage.workerUid != uid ==>
          k in states' && states'[k].stage.workerUid == states[k].stage.workerUid)
    && (forall k :: k in states' && states'[k].stage.workerUid != uid ==>
          k in states && states[k].stage.workerUid == states'[k].stage.workerUid)
  }

  /** One worker's list and the states of its stages change together. */
  lemma AssignedSet(infos: Infos, states: States, assumed: set<string>, uid: string, info: WorkerInfo,
                    states': States, assumed': set<string>)
    requires Assigned(infos, states, assumed) && SameElsewhere(states, states', uid)
    requires assumed' <= states'.Keys && ListOk(info.stages, uid, states')
    requires forall k :: k in states' ==> states'[k].stage.uid == k && k != ""
    requires forall k :: k in states' && states'[k].stage.workerUid == uid ==> InStages(info.stages, k)
    ensures Assigned(infos[uid := info], states', assumed')
  {
  }

  lemma AssignedDrop(infos: Infos, states: States, assumed: set<string>, uid: string, states': States,
                     assumed': set<string>)
    requires Assigned(infos, states, assumed) && SameElsewhere(states, states', uid)
    requires assumed' <= states'.Keys
    requires forall k :: k in states' ==> states'[k].stage.uid == k && k != "" && states'[k].stage.workerUid != uid
    ensures Assigned(infos - {uid}, states', assumed')
  {
  }

  lemma InStagesAt(stages: seq<Stage>, i: nat, key: string)
    requires i < |stages| && stages[i].uid == key
    ensures InStages(stages, key)
  {
  }

  lemma AppendList(stages: seq<Stage>, s: Stage, states: States, states': States)
    requires ListOk(stages, s.workerUid, states) && s.uid !in states
    requires Homed(states', s.uid, s.workerUid)
    requires forall k :: k in states ==> k in states' && states'[k] == states[k]
    ensures ListOk(stages + [s], s.workerUid, states') && InStages(stages + [s], s.uid)
    ensures forall k :: InStages(stages, k) ==> InStages(stages + [s], k)
  {
    var r := stages + [s];
    forall i | 0 <= i < |r| ensures Homed(states', r[i].uid, s.workerUid) {
      if i < |stages| {
        assert Homed(states, stages[i].uid, s.workerUid);
      }
    }
    assert r[|stages|] == s;
    InStagesAt(r, |stages|, s.uid);
    forall k | InStages(stages, k) ensures InStages(r, k) {
      assert r[Find(stages, k)] == stages[Find(stages, k)];
      InStagesAt(r, Find(stages, k), k);
    }
    forall i, j | 0 <= i < j < |r| ensures r[i].uid != r[j].uid {
      assert Homed(states, stages[i].uid, s.workerUid);
    }
  }

  lemma NoStages(uid: string, states: States)
    ensures ListOk([], uid, states)
  {
  }

  lemma InsertAssigned(c: Cache, s: Stage, a: bool)
    requires Assigned(c.infos, c.states, c.assumed) && s.uid != "" && s.uid !in c.states
    ensures Assigned(Insert(c, s, a).infos, Insert(c, s, a).states, Insert(c, s, a).assumed)
  {
    hide Without, Assigned;
    var b := Base(c.infos, c.gen, s.workerUid);
    var info := b.(stages := b.stages + [s], generation := BaseGen(c.infos, c.gen, s.workerUid) + 1);
    AppendedAssigned(c.infos, c.states, c.assumed, s, b, info, a);
  }

  lemma AppendedAssigned(infos: Infos, states: States, assumed: set<string>, s: Stage, b: WorkerInfo,
                         info: WorkerInfo, a: bool)
    requires Assigned(infos, states, assumed) && s.uid != "" && s.uid !in states
    requires b.stages == (if s.workerUid in infos then infos[s.workerUid].stages else []) &&
        info.stages == b.stages + [s]
    ensures Assigned(infos[s.workerUid := info], states[s.uid := StageState(s, false)],
                     if a then assumed + {s.uid} else assumed)
  {
    hide InStages, ListOk;
    var states' := states[s.uid := StageState(s, false)];
    NoStages(s.workerUid, states);
    AppendList(b.stages, s, states, states');
    forall k | k in states' && states'[k].stage.workerUid == s.workerUid ensures InStages(info.stages, k) {
      assert k != s.uid ==> StateOk(infos, states[k], k);
    }
    forall k | k in states' ensures states'[k].stage.uid == k && k != "" {
      assert k != s.uid ==> StateOk(infos, states[k], k);
    }
    AssignedSet(infos, states, assumed, s.workerUid, info, states', if a then assumed + {s.uid} else assumed);
  }

  lemma RemoveAtKeeps(stages: seq<Stage>, i: nat, uid: string, states: States, key: string)
    requires i < |stages| && ListOk(stages, uid, states) && stages[i].uid == key
    ensures ListOk(RemoveAt(stages, i), uid, states - {key})
    ensures forall k :: k != key && InStages(stages, k) ==> InStages(RemoveAt(stages, i), k)
  {
    var r := RemoveAt(stages, i);
    forall j | 0 <= j < |r| ensures Homed(states - {key}, r[j].uid, uid) {
      var f := if j == i then |stages| - 1 else j;
      assert r[j] == stages[f] && Homed(states, stages[f].uid, uid);
    }
    forall k | k != key && InStages(stages, k) ensures InStages(r, k) {
      var f := Find(stages, k);
      var j := if f == |stages| - 1 then i else f;
      assert r[j] == stages[f];
      InStagesAt(r, j, k);
    }
  }

  /** The cached stage that s names: same key, same worker. */
  predicate Names(c: Cache, s: Stage) {
    Homed(c.states, s.uid, s.workerUid)
  }

  /** Without its stage s, the entry stays with the shorter list, or goes if that list is empty. */
  lemma DetachedAssigned(infos: Infos, states: States, assumed: set<string>, s: Stage, info: WorkerInfo)
    requires Assigned(infos, states, assumed) && Homed(states, s.uid, s.workerUid)
    requires s.workerUid in infos && InStages(infos[s.workerUid].stages, s.uid)
    requires info.stages == RemoveAt(infos[s.workerUid].stages, Find(infos[s.workerUid].stages, s.uid))
    ensures Assigned(infos[s.workerUid := info], states - {s.uid}, assumed - {s.uid})
    ensures info.stages == [] ==> Assigned(infos - {s.workerUid}, states - {s.uid}, assumed - {s.uid})
  {
    var stages := infos[s.workerUid].stages;
    RemoveAtKeeps(stages, Find(stages, s.uid), s.workerUid, states, s.uid);
    assert forall k :: k in states ==> StateOk(infos, states[k], k);
    hide RemoveAt, ListOk, InStages;
    AssignedSet(infos, states, assumed, s.workerUid, info, states - {s.uid}, assumed - {s.uid});
    if info.stages == [] {
      NothingIn();
      AssignedDrop(infos, states, assumed, s.workerUid, states - {s.uid}, assumed - {s.uid});
    }
  }

  lemma NothingIn()
    ensures forall k :: !InStages([], k)
  {
  }

  lemma NamedHeld(c: Cache, s: Stage)
    requires Assigned(c.infos, c.states, c.assumed) && Names(c, s)
    ensures Holds(c, s) && InStages(c.infos[s.workerUid].stages, s.uid)
  {
    assert StateOk(c.infos, c.states[s.uid], s.uid);
  }

  lemma RemoveAssigned(c: Cache, s: Stage)
    requires Assigned(c.infos, c.states, c.assumed) && Names(c, s)
    ensures Holds(c, s) && Remove(c, s).1 == Ok
    ensures Assigned(Remove(c, s).0.infos, Remove(c, s).0.states, Remove(c, s).0.assumed)
  {
    hide Assigned, Without, RemoveAt, Find;
    NamedHeld(c, s);
    var info := c.infos[s.workerUid];
    var stages := RemoveAt(info.stages, Find(info.stages, s.uid));
    DetachedAssigned(c.infos, c.states, c.assumed, s, info.(stages := stages, generation := c.gen + 1));
  }

  // ---- Proof: workers and names ---------------------------------------------------------------

  lemma InsertRooted(c: Cache, s: Stage, a: bool)
    requires Rooted(c.infos, c.zoneOf, c.owner)
    ensures Rooted(Insert(c, s, a).infos, c.zoneOf, c.owner)
  {
  }

  lemma RemoveRooted(c: Cache, s: Stage)
    requires Rooted(c.infos, c.zoneOf, c.owner) && Holds(c, s)
    ensures Rooted(Remove(c, s).0.infos, c.zoneOf, c.owner)
  {
  }

  lemma SetWorkerRooted(c: Cache, w: Worker)
    requires Rooted(c.infos, c.zoneOf, c.owner)
    requires w.name in c.owner ==> c.owner[w.name] == w.uid
    requires Live(c.infos, w.uid) ==> c.infos[w.uid].worker.value.name == w.name
    ensures var d := SetWorker(c, w); Rooted(d.infos, d.zoneOf, d.owner)
  {
    hide Without, ZoneKey;
    var d := SetWorker(c, w);
    SetWorkerInfos(c, w);
    hide InfoOk;
    assert d.zoneOf.Keys == c.zoneOf.Keys + {w.name} && d.owner.Keys == c.owner.Keys + {w.name};
    forall n | n in d.owner ensures Live(d.infos, d.owner[n]) && d.infos[d.owner[n]].worker.value.name == n {
      assert n != w.name ==> Live(c.infos, c.owner[n]) && c.infos[c.owner[n]].worker.value.name == n;
    }
  }

  lemma SetWorkerInfos(c: Cache, w: Worker)
    requires Rooted(c.infos, c.zoneOf, c.owner)
    requires w.name in c.owner ==> c.owner[w.name] == w.uid
    ensures var d := SetWorker(c, w); forall uid :: uid in d.infos ==> InfoOk(d.infos[uid], uid, d.zoneOf, d.owner)
  {
    hide Without, ZoneKey;
    var d := SetWorker(c, w);
    forall uid | uid in d.infos ensures InfoOk(d.infos[uid], uid, d.zoneOf, d.owner) {
      if uid != w.uid {
        assert InfoOk(c.infos[uid], uid, c.zoneOf, c.owner);
      }
    }
  }

  lemma RemoveWorkerRooted(c: Cache, w: Worker)
    requires Rooted(c.infos, c.zoneOf, c.owner) && Allowed(c, OpRemoveWorker(w)) && w.uid in c.infos
    ensures var d := RemoveWorker(c, w).0; Rooted(d.infos, d.zoneOf, d.owner)
    ensures RemoveWorker(c, w).1 == if Live(c.infos, w.uid) then Ok else Err
  {
    hide Without, ZoneKey;
    var d := RemoveWorker(c, w).0;
    assert InfoOk(c.infos[w.uid], w.uid, c.zoneOf, c.owner);
    forall uid | uid in d.infos ensures InfoOk(d.infos[uid], uid, d.zoneOf, d.owner) {
      assert InfoOk(c.infos[uid], uid, c.zoneOf, c.owner);
    }
    forall n | n in d.owner ensures Live(d.infos, d.owner[n]) && d.infos[d.owner[n]].worker.value.name == n {
      assert Live(c.infos, c.owner[n]) && c.infos[c.owner[n]].worker.value.name == n;
    }
  }

  lemma SameStagesAssigned(infos: Infos, states: States, assumed: set<string>, uid: string, info: WorkerInfo)
    requires Assigned(infos, states, assumed) && info.stages == (if uid in infos then infos[uid].stages else [])
    ensures Assigned(infos[uid := info], states, assumed)
  {
  }

  lemma EmptyDropAssigned(infos: Infos, states: States, assumed: set<string>, uid: string)
    requires Assigned(infos, states, assumed) && uid in infos && infos[uid].stages == []
    ensures Assigned(infos - {uid}, states, assumed)
  {
  }

  // ---- Each kind of change keeps the invariant ------------------------------------------------

  lemma InsertKeeps(c: Cache, s: Stage, a: bool)
    requires Inv(c) && s.uid != "" && s.uid !in c.states
    ensures Inv(Insert(c, s, a))
  {
    hide Ordered, Assigned, Rooted, Without;
    InsertAssigned(c, s, a);
    InsertRooted(c, s, a);
    var b := Base(c.infos, c.gen, s.workerUid);
    TouchOrdered(c.order, c.infos, c.gen, s.workerUid,
                 b.(stages := b.stages + [s], generation := BaseGen(c.infos, c.gen, s.workerUid) + 1));
  }

  lemma RemoveKeeps(c: Cache, s: Stage)
    requires Inv(c) && Names(c, s)
    ensures Remove(c, s).1 == Ok && Inv(Remove(c, s).0)
    ensures Remove(c, s).0.states == c.states - {s.uid} && Remove(c, s).0.assumed == c.assumed - {s.uid}
  {
    hide Ordered, Assigned, Rooted, Without, RemoveAt, Find;
    RemoveAssigned(c, s);
    RemoveRooted(c, s);
    var info := c.infos[s.workerUid];
    var stages := RemoveAt(info.stages, Find(info.stages, s.uid));
    DropOrdered(c.order, c.infos, c.gen, s.workerUid, c.gen + 1);
    TouchOrdered(c.order, c.infos, c.gen, s.workerUid, info.(stages := stages, generation := c.gen + 1));
  }

  /** Replacing the cached value of a stage by one with the same key and worker. */
  lemma RestateKeeps(c: Cache, st: StageState, assumed: set<string>)
    requires Inv(c) && Names(c, st.stage) && assumed <= c.states.Keys
    ensures Inv(c.(states := c.states[st.stage.uid := st], assumed := assumed))
  {
  }

  lemma SetWorkerKeeps(c: Cache, w: Worker)
    requires Inv(c)
    requires w.name in c.owner ==> c.owner[w.name] == w.uid
    requires Live(c.infos, w.uid) ==> c.infos[w.uid].worker.value.name == w.name
    ensures Inv(SetWorker(c, w))
  {
    hide Ordered, Assigned, Rooted, Without, ZoneKey;
    var info := Base(c.infos, c.gen, w.uid).(worker := Some(w), generation := BaseGen(c.infos, c.gen, w.uid) + 1);
    TouchOrdered(c.order, c.infos, c.gen, w.uid, info);
    SetWorkerRooted(c, w);
    SameStagesAssigned(c.infos, c.states, c.assumed, w.uid, info);
  }

  lemma RemoveWorkerKeeps(c: Cache, w: Worker)
    requires Inv(c) && Allowed(c, OpRemoveWorker(w))
    ensures Inv(RemoveWorker(c, w).0) && RemoveWorker(c, w).1 == if Live(c.infos, w.uid) then Ok else Err
  {
    hide Ordered, Assigned, Rooted, Without, ZoneKey;
    if w.uid in c.infos {
      var info := c.infos[w.uid].(worker := None, generation := c.gen + 1);
      RemoveWorkerRooted(c, w);
      DropOrdered(c.order, c.infos, c.gen, w.uid, c.gen + 1);
      TouchOrdered(c.order, c.infos, c.gen, w.uid, info);
      SameStagesAssigned(c.infos, c.states, c.assumed, w.uid, info);
      if info.stages == [] {
        EmptyDropAssigned(c.infos, c.states, c.assumed, w.uid);
      }
    }
  }

  // ---- Every operation keeps the invariant ----------------------------------------------------

  lemma KeysAgree(c: Cache, k: string)
    requires Inv(c) && k in c.states
    ensures c.states[k].stage.uid == k && k != "" && c.assumed <= c.states.Keys
  {
    assert StateOk(c.infos, c.states[k], k);
  }

  lemma OwnerAgrees(c: Cache, uid: string)
    requires Inv(c) && Live(c.infos, uid)
    ensures Borne(c.infos[uid].worker.value, uid, c.zoneOf, c.owner)
  {
    assert InfoOk(c.infos[uid], uid, c.zoneOf, c.owner);
  }

  /** What Allowed means for the names in the tree. */
  lemma AllowedOnTree(c: Cache, op: Op)
    requires Inv(c) && Allowed(c, op)
    ensures op.OpAddWorker? ==>
      var w := op.worker; w.name in c.zoneOf ==> c.zoneOf[w.name] == ZoneKey(w)
    ensures op.OpUpdateWorker? ==>
      var o, w := op.oldWorker, op.newWorker;
      && w.name == o.name
      && (w.uid in c.infos ==> w.name in c.zoneOf && c.zoneOf[w.name] == ZoneKey(o))
      && (w.uid !in c.infos ==> w.name !in c.zoneOf)
  {
    hide ZoneKey, Ordered, Assigned;
    if op.OpAddWorker? && op.worker.name in c.owner {
      OwnerAgrees(c, op.worker.uid);
    }
    if op.OpUpdateWorker? && op.newWorker.uid in c.infos {
      OwnerAgrees(c, op.newWorker.uid);
    }
  }

  /** All nine operations, on every input their callers may pass; only the two documented
      corruptions are fatal, and they change nothing. */
  lemma StepKeeps(c: Cache, op: Op)
    requires Inv(c) && Allowed(c, op)
    ensures Inv(Step(c, op).0)
    ensures Step(c, op).1 == Fatal ==> Step(c, op).0 == c && (op.OpUpdateStage? || op.OpRemoveStage?)
  {
    hide Inv, Insert, Remove, SetWorker, RemoveWorker, ZoneKey;
    match op
    case OpAssumeStage(s) => if s.uid != "" && s.uid !in c.states { InsertKeeps(c, s, true); }
    case OpFinishBinding(s) =>
      if s.uid in c.states && s.uid in c.assumed {
        KeysAgree(c, s.uid);
        RestateKeeps(c, c.states[s.uid].(bindingFinished := true), c.assumed);
      }
    case OpForgetStage(s) => if Names(c, s) { RemoveKeeps(c, s); }
    case OpAddStage(s) => AddStageKeeps(c, s);
    case OpUpdateStage(o, s) =>
      if o.uid in c.states {
        KeysAgree(c, o.uid);
        RemoveKeeps(c, o);
        InsertKeeps(Remove(c, o).0, s, false);
      }
    case OpRemoveStage(s) =>
      if s.uid in c.states {
        KeysAgree(c, s.uid);
        RemoveKeeps(c, c.states[s.uid].stage);
      }
    case OpAddWorker(w) => SetWorkerKeeps(c, w);
    case OpUpdateWorker(_, w) =>
      if w.uid in c.infos {
        OwnerAgrees(c, w.uid);
      }
      SetWorkerKeeps(c, w);
    case OpRemoveWorker(w) => RemoveWorkerKeeps(c, w);
  }

  lemma AddStageKeeps(c: Cache, s: Stage)
    requires Inv(c)
    ensures Inv(AddStage(c, s).0) && AddStage(c, s).1 != Fatal
  {
    hide Inv, Insert, Remove;
    if s.uid in c.states && s.uid in c.assumed {
      KeysAgree(c, s.uid);
      if c.states[s.uid].stage.workerUid != s.workerUid {
        RemoveKeeps(c, c.states[s.uid].stage);
        InsertKeeps(Remove(c, c.states[s.uid].stage).0, s, false);
      } else {
        RestateKeeps(c, c.states[s.uid].(stage := s), c.assumed - {s.uid});
      }
    } else if s.uid != "" && s.uid !in c.states {
      InsertKeeps(c, s, false);
    }
  }

  // ---- StageCount ------------------------------------------------------------------------------

  /** The loop of StageCount, over the workers in the order in which the map is ranged over. */
  function SumStages(uids: seq<string>, infos: Infos): nat
    requires forall u :: u in uids ==> u in infos
  {
    if uids == [] then 0 else SumStages(uids[..|uids| - 1], infos) + |infos[uids[|uids| - 1]].stages|
  }

  ghost function KeysOn(states: States, uids: seq<string>): set<string> {
    set k | k in states && states[k].stage.workerUid in uids
  }

  lemma OneWorkerCount(infos: Infos, states: States, assumed: set<string>, uid: string)
    requires Assigned(infos, states, assumed) && uid in infos
    ensures |KeysOn(states, [uid])| == |infos[uid].stages|
  {
    var stages := infos[uid].stages;
    assert ListOk(stages, uid, states);
    var keys := seq(|stages|, i requires 0 <= i < |stages| => stages[i].uid);
    DistinctCount(keys);
    forall k | k in KeysOn(states, [uid]) ensures k in Elems(keys) {
      assert StateOk(infos, states[k], k);
      assert keys[Find(stages, k)] == k;
    }
    forall k | k in Elems(keys) ensures k in KeysOn(states, [uid]) {
      var i :| 0 <= i < |keys| && keys[i] == k;
      assert Homed(states, stages[i].uid, uid);
    }
    assert Elems(keys) == KeysOn(states, [uid]);
  }

  lemma {:induction false} SumCounts(infos: Infos, states: States, assumed: set<string>, uids: seq<string>)
    requires Assigned(infos, states, assumed) && NoDup(uids) && forall u :: u in uids ==> u in infos
    ensures SumStages(uids, infos) == |KeysOn(states, uids)|
  {
    hide Assigned, KeysOn;
    if uids == [] {
      NoKeys(states);
    } else {
      var n := |uids| - 1;
      SumCounts(infos, states, assumed, uids[..n]);
      OneWorkerCount(infos, states, assumed, uids[n]);
      KeysApart(states, uids);
    }
  }

  lemma NoKeys(states: States)
    ensures |KeysOn(states, [])| == 0
  {
    assert KeysOn(states, []) == {};
  }

  lemma KeysApart(states: States, uids: seq<string>)
    requires NoDup(uids) && uids != []
    ensures var n := |uids| - 1; |KeysOn(states, uids)| == |KeysOn(states, uids[..n])| + |KeysOn(states, [uids[n]])|
  {
    var n := |uids| - 1;
    var a, b := KeysOn(states, uids[..n]), KeysOn(states, [uids[n]]);
    assert uids == uids[..n] + [uids[n]];
    assert KeysOn(states, uids) == a + b;
    assert a !! b;
  }

  /** The stages summed over all workers are exactly the cached stages. */
  lemma StageCountIsStates(c: Cache, uids: seq<string>)
    requires Inv(c) && Enumerates(uids, c.infos.Keys)
    ensures SumStages(uids, c.infos) == |c.states|
  {
    SumCounts(c.infos, c.states, c.assumed, uids);
    forall k | k in c.states ensures c.states[k].stage.workerUid in uids {
      assert StateOk(c.infos, c.states[k], k);
    }
    assert KeysOn(c.states, uids) == c.states.Keys;
  }
}
