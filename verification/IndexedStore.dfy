/** pkg/informer/thread_safe_store.go: a keyed store with secondary indexes kept up to date in place. */
module IndexedStore {
  import opened Common

  /** An index function may return any number of values, with repetitions, or an error (None). */
  type IndexFunc<!T> = T -> Option<seq<string>>
  type Index = map<string, set<string>>

  datatype Result<T> = Ok(value: T) | NoSuchIndex | IndexFuncFailed

  // ---- Specification: what a scan of all items would find ------------------------------------------

  function Values<T>(f: IndexFunc<T>, obj: Option<T>): seq<string> {
    if obj.None? || f(obj.value).None? then [] else f(obj.value).value
  }

  function Find<T>(items: map<string, T>, k: string): Option<T> {
    if k in items then Some(items[k]) else None
  }

  /** The keys of the items to which f gives the value v. */
  ghost function Scan<T>(items: map<string, T>, f: IndexFunc<T>, v: string): set<string> {
    set k | k in items && f(items[k]).Some? && v in f(items[k]).value
  }

  function Entry(index: Index, v: string): set<string> {
    if v in index then index[v] else {}
  }

  ghost predicate Shares(a: seq<string>, b: seq<string>) {
    exists v :: v in a && v in b
  }

  /** The keys of the items that share a value with the wanted ones. */
  ghost function Matching<T>(items: map<string, T>, f: IndexFunc<T>, wanted: seq<string>): set<string> {
    set k | k in items && f(items[k]).Some? && Shares(wanted, f(items[k]).value)
  }

  ghost predicate NoneEmpty(index: Index) {
    forall v :: v in index ==> index[v] != {}
  }

  ghost predicate Exact<T>(index: Index, items: map<string, T>, f: IndexFunc<T>) {
    NoneEmpty(index) && forall v :: Entry(index, v) == Scan(items, f, v)
  }

  function IndexOf(indices: map<string, Index>, name: string): Index {
    if name in indices then indices[name] else map[]
  }

  ghost predicate AllExact<T>(indices: map<string, Index>, items: map<string, T>, indexers: map<string, IndexFunc<T>>) {
    && indices.Keys <= indexers.Keys
    && (forall name :: name in indexers ==> Exact(IndexOf(indices, name), items, indexers[name]))
  }

  /** items with what a key holds replaced. */
  function With<T>(items: map<string, T>, key: string, obj: Option<T>): map<string, T> {
    if obj.Some? then items[key := obj.value] else items - {key}
  }

  predicate Gives<T>(f: IndexFunc<T>, obj: Option<T>) { obj.Some? ==> f(obj.value).Some? }

  /** No index function fails on the object. */
  ghost predicate Computes<T>(indexers: map<string, IndexFunc<T>>, obj: Option<T>) {
    forall name :: name in indexers ==> Gives(indexers[name], obj)
  }

  // ---- Lemmas about scans --------------------------------------------------------------------------

  lemma ScanWith<T>(items: map<string, T>, f: IndexFunc<T>, key: string, obj: Option<T>, v: string)
    ensures Scan(With(items, key, obj), f, v)
         == if v in Values(f, obj) then Scan(items, f, v) + {key} else Scan(items, f, v) - {key}
  {
  }

  lemma ScanSame<T>(items: map<string, T>, f: IndexFunc<T>, key: string, v: string)
    ensures key in Scan(items, f, v) <==> v in Values(f, Find(items, key))
  {
  }

  // ---- Index entries -------------------------------------------------------------------------------

  method AddKeyToIndex(key: string, indexValue: string, index: Index) returns (r: Index)
    requires NoneEmpty(index)
    ensures NoneEmpty(r)
    ensures forall v :: Entry(r, v) == Entry(index, v) + (if v == indexValue then {key} else {})
  {
    var s := Entry(index, indexValue);
    r := index[indexValue := s + {key}];
  }

  method DeleteKeyFromIndex(key: string, indexValue: string, index: Index) returns (r: Index)
    requires NoneEmpty(index)
    ensures NoneEmpty(r)
    ensures forall v :: Entry(r, v) == Entry(index, v) - (if v == indexValue then {key} else {})
  {
    if indexValue !in index { return index; }
    var s := index[indexValue] - {key};
    r := index[indexValue := s];
    if |s| == 0 {
      r := index - {indexValue};
    }
  }

  method DeleteKeyFrom(key: string, values: seq<string>, index: Index) returns (r: Index)
    requires NoneEmpty(index)
    ensures NoneEmpty(r)
    ensures forall v :: Entry(r, v) == if v in values then Entry(index, v) - {key} else Entry(index, v)
  {
    hide Entry, NoneEmpty;
    r := index;
    for i := 0 to |values|
      invariant NoneEmpty(r)
      invariant forall v :: Entry(r, v) == if v in values[..i] then Entry(index, v) - {key} else Entry(index, v)
    {
      assert values[..i + 1] == values[..i] + [values[i]];
      r := DeleteKeyFromIndex(key, values[i], r);
    }
    assert values[..|values|] == values;
  }

  method AddKeyTo(key: string, values: seq<string>, index: Index) returns (r: Index)
    requires NoneEmpty(index)
    ensures NoneEmpty(r)
    ensures forall v :: Entry(r, v) == if v in values then Entry(index, v) + {key} else Entry(index, v)
  {
    hide Entry, NoneEmpty;
    r := index;
    for i := 0 to |values|
      invariant NoneEmpty(r)
      invariant forall v :: Entry(r, v) == if v in values[..i] then Entry(index, v) + {key} else Entry(index, v)
    {
      assert values[..i + 1] == values[..i] + [values[i]];
      r := AddKeyToIndex(key, values[i], r);
    }
    assert values[..|values|] == values;
  }

  /** The body of updateIndices for one index: exact before the change of one item, exact after it,
      whatever values repeat within or between the old and the new. */
  method Reindex<T>(key: string, oldValues: seq<string>, newValues: seq<string>, index: Index,
                    ghost items: map<string, T>,
                    ghost f: IndexFunc<T>, ghost obj: Option<T>) returns (r: Index)
    requires Exact(index, items, f)
    requires oldValues == Values(f, Find(items, key)) && newValues == Values(f, obj)
    ensures Exact(r, With(items, key, obj), f)
  {
    hide Scan, Values, With, Entry, NoneEmpty;
    if |newValues| == 1 && |oldValues| == 1 && newValues[0] == oldValues[0] {
      r := index;
    } else {
      r := DeleteKeyFrom(key, oldValues, index);
      r := AddKeyTo(key, newValues, r);
    }
    forall v ensures Entry(r, v) == Scan(With(items, key, obj), f, v) {
      ScanWith(items, f, key, obj, v);
      ScanSame(items, f, key, v);
    }
  }

  // ---- Progress over the indexers ------------------------------------------------------------------

  /** The first i indexes are exact for the items after the change, the others for those before it. */
  ghost predicate HalfDone<T>(indices: map<string, Index>, before: map<string, T>, after: map<string, T>,
                              indexers: map<string, IndexFunc<T>>, order: seq<string>, i: nat) {
    && indices.Keys <= indexers.Keys
    && (forall j :: 0 <= j < |order| ==>
          order[j] in indexers &&
              Exact(IndexOf(indices, order[j]), if j < i then after else before, indexers[order[j]]))
  }

  lemma HalfDoneStart<T>(indices: map<string, Index>, before: map<string, T>, after: map<string, T>,
                         indexers: map<string, IndexFunc<T>>, order: seq<string>)
    requires AllExact(indices, before, indexers) && Enumerates(order, indexers.Keys)
    ensures HalfDone(indices, before, after, indexers, order, 0)
    ensures forall obj :: AllGive(indexers, order, 0, obj)
  {
    hide Exact;
    forall j | 0 <= j < |order| ensures order[j] in indexers { assert order[j] in order; }
  }

  lemma HalfDoneAt<T>(indices: map<string, Index>, before: map<string, T>, after: map<string, T>,
                      indexers: map<string, IndexFunc<T>>, order: seq<string>, i: nat)
    requires HalfDone(indices, before, after, indexers, order, i) && i < |order|
    ensures order[i] in indexers && Exact(IndexOf(indices, order[i]), before, indexers[order[i]])
    ensures forall obj :: Computes(indexers, obj) ==> Gives(indexers[order[i]], obj)
  {
    hide Exact;
  }

  lemma HalfDoneStep<T>(indices: map<string, Index>, before: map<string, T>, after: map<string, T>,
                        indexers: map<string, IndexFunc<T>>, order: seq<string>, i: nat, index: Index)
    requires HalfDone(indices, before, after, indexers, order, i) && Enumerates(order, indexers.Keys)
    requires i < |order| && order[i] in indexers && Exact(index, after, indexers[order[i]])
    ensures HalfDone(indices[order[i] := index], before, after, indexers, order, i + 1)
  {
    hide Exact;
  }

  lemma HalfDoneEnd<T>(indices: map<string, Index>, before: map<string, T>, after: map<string, T>,
                       indexers: map<string, IndexFunc<T>>, order: seq<string>)
    requires HalfDone(indices, before, after, indexers, order, |order|) && Enumerates(order, indexers.Keys)
    ensures AllExact(indices, after, indexers)
  {
    hide Exact;
    forall name | name in indexers ensures Exact(IndexOf(indices, name), after, indexers[name]) {
      assert name in order;
    }
  }

  ghost predicate AllGive<T>(indexers: map<string, IndexFunc<T>>, order: seq<string>, i: nat, obj: Option<T>) {
    forall j :: 0 <= j < i && j < |order| && order[j] in indexers ==> Gives(indexers[order[j]], obj)
  }

  lemma AllGiveStep<T>(indexers: map<string, IndexFunc<T>>, order: seq<string>, i: nat, obj: Option<T>)
    requires AllGive(indexers, order, i, obj) && i < |order| && order[i] in indexers && Gives(indexers[order[i]], obj)
    ensures AllGive(indexers, order, i + 1, obj)
  {
  }

  lemma AllGiveEnd<T>(indexers: map<string, IndexFunc<T>>, order: seq<string>, obj: Option<T>)
    requires AllGive(indexers, order, |order|, obj) && Enumerates(order, indexers.Keys)
    ensures Computes(indexers, obj)
  {
    forall name | name in indexers ensures Gives(indexers[name], obj) { assert name in order; }
  }

  // ---- The store -----------------------------------------------------------------------------------

  class ThreadSafeMap<T> {
    var items: map<string, T>
    var indexers: map<string, IndexFunc<T>>
    var indices: map<string, Index>

    ghost predicate Valid()
      reads this
    {
      AllExact(indices, items, indexers)
    }

    constructor (indexers: map<string, IndexFunc<T>>)
      ensures Valid() && items == map[] && this.indexers == indexers
    {
      items, indices := map[], map[];
      this.indexers := indexers;
    }

    /** updateIndices over the indexers in any `order`: exact for the items before, exact for them after.
        It panics exactly where an index function fails on one of the two objects. */
    method UpdateIndices(obj: Option<T>, key: string, ghost before: map<string, T>, oldObj: Option<T>,
                         order: seq<string>)
      returns (ok: bool)
      requires AllExact(indices, before, indexers) && oldObj == Find(before, key)
      requires Enumerates(order, indexers.Keys)
      modifies this`indices
      ensures ok <==> Computes(indexers, oldObj) && Computes(indexers, obj)
      ensures ok ==> AllExact(indices, With(before, key, obj), indexers)
    {
      hide Exact, With, Gives, Values, Enumerates, HalfDone, AllExact, AllGive;
      ghost var after := With(before, key, obj);
      HalfDoneStart(indices, before, after, indexers, order);
      for i := 0 to |order|
        invariant HalfDone(indices, before, after, indexers, order, i)
        invariant AllGive(indexers, order, i, oldObj) && AllGive(indexers, order, i, obj)
      {
        HalfDoneAt(indices, before, after, indexers, order, i);
        var name := order[i];
        var f := indexers[name];
        if !Gives(f, oldObj) || !Gives(f, obj) {
          return false;
        }
        var index := Reindex(key, Values(f, oldObj), Values(f, obj), IndexOf(indices, name), before, f, obj);
        HalfDoneStep(indices, before, after, indexers, order, i, index);
        AllGiveStep(indexers, order, i, oldObj);
        AllGiveStep(indexers, order, i, obj);
        indices := indices[name := index];
      }
      HalfDoneEnd(indices, before, after, indexers, order);
      AllGiveEnd(indexers, order, oldObj);
      AllGiveEnd(indexers, order, obj);
      ok := true;
    }

    /** Add is the same call. ok: it does not panic. */
    method Update(key: string, obj: T, order: seq<string>) returns (ok: bool)
      requires Valid() && Enumerates(order, indexers.Keys)
      modifies this`items, this`indices
      ensures items == old(items)[key := obj]
      ensures ok <==> Computes(indexers, Some(obj)) && Computes(indexers, Find(old(items), key))
      ensures ok ==> Valid()
    {
      var oldObj := Find(items, key);
      items := items[key := obj];
      ok := UpdateIndices(Some(obj), key, old(items), oldObj, order);
    }

    method Delete(key: string, order: seq<string>) returns (ok: bool)
      requires Valid() && Enumerates(order, indexers.Keys)
      modifies this`items, this`indices
      ensures ok <==> Computes(indexers, Find(old(items), key))
      ensures items == if ok then old(items) - {key} else old(items)
      ensures ok ==> Valid()
    {
      ok := true;
      if key in items {
        ok := UpdateIndices(None, key, items, Some(items[key]), order);
        if !ok {
          return;
        }
        items := items - {key};
      }
    }

    /** Replace drops every index and builds them again, one item after the other. */
    method Replace(newItems: map<string, T>, keys: seq<string>, order: seq<string>) returns (ok: bool)
      requires Enumerates(keys, newItems.Keys) && Enumerates(order, indexers.Keys)
      modifies this`items, this`indices
      ensures items == newItems
      ensures ok <==> forall k :: k in newItems ==> Computes(indexers, Some(newItems[k]))
      ensures ok ==> Valid()
    {
      hide Exact, AllExact, Computes;
      items := newItems;
      indices := map[];
      NothingIndexed<T>(indexers);
      ghost var done: map<string, T> := map[];
      for i := 0 to |keys|
        invariant items == newItems && AllExact(indices, done, indexers)
        invariant forall k :: k in done <==> k in keys[..i]
        invariant forall k :: k in done ==> k in newItems && done[k] == newItems[k] && Computes(indexers, Some(done[k]))
      {
        assert keys[..i + 1] == keys[..i] + [keys[i]];
        var k := keys[i];
        assert k in keys;
        assert k !in done && k in newItems;
        NothingToCompute(indexers);
        ok := UpdateIndices(Some(newItems[k]), k, done, None, order);
        if !ok {
          return;
        }
        done := done[k := newItems[k]];
      }
      assert keys[..|keys|] == keys;
      assert done == newItems;
      ok := true;
    }

    /** Refused on a store that holds anything, and where a name is taken; nothing changes then. */
    method AddIndexers(newIndexers: map<string, IndexFunc<T>>) returns (ok: bool)
      requires Valid()
      modifies this`indexers
      ensures ok <==> items == map[] && old(indexers).Keys !! newIndexers.Keys
      ensures indexers == if ok then old(indexers) + newIndexers else old(indexers)
      ensures Valid()
    {
      if |items| > 0 { return false; }
      if indexers.Keys * newIndexers.Keys != {} { return false; }
      indexers := indexers + newIndexers;
      return true;
    }

    /** Index returns each item that shares a value with the object exactly once. */
    method Index(indexName: string, obj: T) returns (r: Result<seq<T>>, ghost keys: seq<string>)
      requires Valid()
      ensures r.NoSuchIndex? <==> indexName !in indexers
      ensures r.IndexFuncFailed? <==> indexName in indexers && indexers[indexName](obj).None?
      ensures r.Ok? ==>
        && Enumerates(keys, Matching(items, indexers[indexName], indexers[indexName](obj).value))
        && r.value == Select(items, keys)
    {
      keys := [];
      if indexName !in indexers { return NoSuchIndex, []; }
      var f := indexers[indexName];
      var values := f(obj);
      if values.None? { return IndexFuncFailed, []; }
      var index := IndexOf(indices, indexName);
      assert Exact(index, items, f);
      var found := Collect(index, values.value, items, f);
      var list: seq<T>;
      list, keys := ItemsOf(found);
      r := Ok(list);
    }

    method ByIndex(indexName: string, indexedValue: string) returns (r: Result<seq<T>>, ghost keys: seq<string>)
      requires Valid()
      ensures r.NoSuchIndex? <==> indexName !in indexers
      ensures !r.IndexFuncFailed?
      ensures r.Ok? ==>
        && Enumerates(keys, Scan(items, indexers[indexName], indexedValue))
        && r.value == Select(items, keys)
    {
      keys := [];
      if indexName !in indexers { return NoSuchIndex, []; }
      var index := IndexOf(indices, indexName);
      assert Exact(index, items, indexers[indexName]);
      assert Entry(index, indexedValue) == Scan(items, indexers[indexName], indexedValue);
      var list: seq<T>;
      list, keys := ItemsOf(Entry(index, indexedValue));
      r := Ok(list);
    }

    /** Ranging over a set of keys. */
    method ItemsOf(found: set<string>) returns (list: seq<T>, ghost keys: seq<string>)
      requires found <= items.Keys
      ensures Enumerates(keys, found) && list == Select(items, keys)
    {
      var rest := found;
      list, keys := [], [];
      while rest != {}
        invariant rest <= found && Enumerates(keys, found - rest) && list == Select(items, keys)
      {
        var k :| k in rest;
        EnumerateOneMore(keys, found - rest, k);
        assert found - (rest - {k}) == found - rest + {k};
        keys := keys + [k];
        list := list + [items[k]];
        rest := rest - {k};
      }
      assert found - rest == found;
    }
  }

  ghost function Select<T>(items: map<string, T>, keys: seq<string>): seq<T>
    requires forall k :: k in keys ==> k in items
  {
    seq(|keys|, i requires 0 <= i < |keys| => items[keys[i]])
  }

  /** The key set of Index: one entry on the fast path, otherwise the union of the entries. */
  method Collect<T>(index: Index, values: seq<string>, ghost items: map<string, T>, ghost f: IndexFunc<T>)
    returns (found: set<string>)
    requires Exact(index, items, f)
    ensures found == Matching(items, f, values)
  {
    if |values| == 1 {
      found := Entry(index, values[0]);
      assert found == Scan(items, f, values[0]);
    } else {
      found := {};
      for i := 0 to |values|
        invariant found == Matching(items, f, values[..i])
      {
        MatchOneMore(items, f, values, i);
        assert Entry(index, values[i]) == Scan(items, f, values[i]);
        found := found + Entry(index, values[i]);
      }
      assert values[..|values|] == values;
    }
  }

  lemma MatchOneMore<T>(items: map<string, T>, f: IndexFunc<T>, values: seq<string>, i: nat)
    requires i < |values|
    ensures Matching(items, f, values[..i + 1]) == Matching(items, f, values[..i]) + Scan(items, f, values[i])
  {
  }

  lemma NothingIndexed<T>(indexers: map<string, IndexFunc<T>>)
    ensures AllExact(map[], map[], indexers)
  {
  }

  lemma NothingToCompute<T>(indexers: map<string, IndexFunc<T>>)
    ensures Computes(indexers, None)
  {
  }
}
