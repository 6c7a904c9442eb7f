/**
 The in-memory response cache: entries, their write order, and two inverted indices.
 What its operations do, what each of them keeps, and the object that carries them out.
 `put_all_entities`, which writes past the order list, is not among the operations.
 */
module ResponseCache {
  import opened Sets
  import opened Wrappers
  import opened InvertedIndex
  import opened JsonTree

  datatype CachedResponse = CachedResponse(data: Json, createdAt: nat, ttlSecs: nat, types: set<string>, entities: set<string>)

  datatype State = State(entries: map<string, CachedResponse>, order: seq<string>, typeIndex: Index, entityIndex: Index)

  const EMPTY := State(map[], [], map[], map[])

  // ----- the types and entities a response mentions -----

  function TypeName(v: Json): Option<string> {
    if v.Obj? && "__typename" in v.fields && v.fields["__typename"].Str? then Some(v.fields["__typename"].s) else None
  }

  function IdOf(v: Json): Option<string> {
    if v.Obj? && "id" in v.fields && v.fields["id"].Str? then Some(v.fields["id"].s)
    else if v.Obj? && "_id" in v.fields && v.fields["_id"].Str? then Some(v.fields["_id"].s)
    else None
  }

  /** `Type#id`, for an object that has both. */
  function EntityKey(v: Json): Option<string> {
    if TypeName(v).Some? && IdOf(v).Some? then Some(TypeName(v).value + "#" + IdOf(v).value) else None
  }

  /** Which of the two a search is after. */
  datatype Want = Types | Entities

  function Here(want: Want, v: Json): set<string> {
    var found := if want == Types then TypeName(v) else EntityKey(v);
    if found.Some? then {found.value} else {}
  }

  /** What the object and everything inside it mentions. */
  function Mentioned(want: Want, v: Json): set<string> {
    Here(want, v) +
    match v
    case Obj(fields) => set k, t | k in fields && t in Mentioned(want, fields[k]) :: t
    case Arr(items) => set i, t | 0 <= i < |items| && t in Mentioned(want, items[i]) :: t
    case _ => {}
  }

  /** Reference: mentioned by the value found at some path. */
  ghost predicate MentionedAt(want: Want, v: Json, path: seq<Step>, t: string) {
    Lookup(v, path).Some? && t in Here(want, Lookup(v, path).value)
  }

  lemma {:induction false} MentionedAtIsMentioned(want: Want, v: Json, path: seq<Step>, t: string)
    requires MentionedAt(want, v, path, t)
    ensures t in Mentioned(want, v)
    decreases |path|
  {
    if path != [] {
      MentionedAtIsMentioned(want, Child(v, path[0]).value, path[1..], t);
    }
  }

  lemma {:induction false} MentionedSomewhere(want: Want, v: Json, t: string) returns (path: seq<Step>)
    requires t in Mentioned(want, v)
    ensures MentionedAt(want, v, path, t)
    decreases v
  {
    if t in Here(want, v) {
      path := [];
    } else if v.Obj? {
      var k :| k in v.fields && t in Mentioned(want, v.fields[k]);
      var rest := MentionedSomewhere(want, v.fields[k], t);
      path := [Key(k)] + rest;
      assert path[1..] == rest;
    } else {
      var i :| 0 <= i < |v.items| && t in Mentioned(want, v.items[i]);
      var rest := MentionedSomewhere(want, v.items[i], t);
      path := [Index(i)] + rest;
      assert path[1..] == rest;
    }
  }

  // ----- the indices -----

  /** What an entry is filed under. */
  function Names(want: Want, e: CachedResponse): set<string> {
    if want == Types then e.types else e.entities
  }

  function IndexOf(want: Want, s: State): Index {
    if want == Types then s.typeIndex else s.entityIndex
  }

  // ----- the operations -----

  /** An entry goes, and its key with it from the indices of the names it carries now. */
  function RemoveOne(s: State, key: string): State {
    if key !in s.entries then s
    else
      var e := s.entries[key];
      s.(entries := s.entries - {key}, typeIndex := Unlink(s.typeIndex, e.types, key),
         entityIndex := Unlink(s.entityIndex, e.entities, key))
  }

  function RemoveAll(s: State, keys: seq<string>): State
    decreases |keys|
  {
    if keys == [] then s else RemoveAll(RemoveOne(s, keys[0]), keys[1..])
  }

  function Without(order: seq<string>, keys: set<string>): seq<string> {
    if order == [] then [] else (if order[0] in keys then [] else [order[0]]) + Without(order[1..], keys)
  }

  /** The same at once for a set of keys, told without an order. */
  function Drop(s: State, keys: set<string>): State {
    s.(entries := s.entries - keys, typeIndex := Purge(s.entries, s.typeIndex, keys, Types),
       entityIndex := Purge(s.entries, s.entityIndex, keys, Entities))
  }

  function Purge(entries: map<string, CachedResponse>, idx: Index, keys: set<string>, want: Want): Index {
    map n | n in idx && idx[n] - Gone(entries, keys, n, want) != {} :: idx[n] - Gone(entries, keys, n, want)
  }

  /** The keys whose entries carry the name. */
  function Gone(entries: map<string, CachedResponse>, keys: set<string>, name: string, want: Want): set<string> {
    set k | k in keys && k in entries && name in Names(want, entries[k])
  }

  /** The keys go from the order list too. */
  function Remove(s: State, keys: set<string>): State {
    Drop(s, keys).(order := Without(s.order, keys))
  }

  /** At capacity the oldest writes make room for one more. */
  function Evicted(s: State, maxSize: nat): set<string> {
    if |s.entries| >= maxSize then
      var toRemove := |s.entries| - maxSize + 1;
      Elements(s.order[..if toRemove <= |s.order| then toRemove else |s.order|])
    else {}
  }

  function Insert(s: State, key: string, e: CachedResponse): State {
    State(s.entries[key := e], Without(s.order, {key}) + [key],
          Link(s.typeIndex, e.types, key), Link(s.entityIndex, e.entities, key))
  }

  function Put(s: State, maxSize: nat, key: string, e: CachedResponse): State {
    Insert(Remove(s, Evicted(s, maxSize)), key, e)
  }

  /** All keys filed under any of the names. */
  function Filed(idx: Index, names: set<string>): set<string> {
    set n, k | n in names && k in Under(idx, n) :: k
  }

  function Invalidate(s: State, want: Want, names: set<string>): State {
    Remove(s, Filed(IndexOf(want, s), names))
  }

  function InvalidateForMutation(s: State, response: Json): State {
    Remove(s, Filed(s.typeIndex, Mentioned(Types, response)) + Filed(s.entityIndex, Mentioned(Entities, response)))
  }

  // ----- what every operation keeps -----

  ghost predicate NoDup(order: seq<string>) {
    forall i, j :: 0 <= i < j < |order| ==> order[i] != order[j]
  }

  /** Every entry is filed under each of its names. */
  ghost predicate Complete(s: State, want: Want) {
    forall k, n :: k in s.entries && n in Names(want, s.entries[k]) ==> k in Under(IndexOf(want, s), n)
  }

  /** The order list names each cached key once. */
  ghost predicate OrderOk(s: State) {
    NoDup(s.order) && forall k :: k in s.order <==> k in s.entries
  }

  ghost predicate Inv(s: State) {
    OrderOk(s) && NonEmpty(s.typeIndex) && NonEmpty(s.entityIndex) && Complete(s, Types) && Complete(s, Entities)
  }

  lemma {:induction false} WithoutElements(order: seq<string>, keys: set<string>)
    ensures forall k :: k in Without(order, keys) <==> k in order && k !in keys
    ensures NoDup(order) ==> NoDup(Without(order, keys))
    ensures |Without(order, keys)| <= |order|
  {
    if order != [] {
      var rest := Without(order[1..], keys);
      WithoutElements(order[1..], keys);
      assert order == [order[0]] + order[1..];
      if NoDup(order) {
        assert forall j :: 0 <= j < |order[1..]| ==> order[1..][j] == order[j + 1];
        assert order[0] !in order[1..];
        assert NoDup(order[1..]);
      }
    }
  }

  /** Dropping in two steps is dropping at once. */
  lemma DropTwice(s: State, a: set<string>, b: set<string>)
    ensures Drop(Drop(s, a), b) == Drop(s, a + b)
  {
    var s1 := Drop(s, a);
    assert s1.entries - b == s.entries - (a + b);
    PurgeTwice(s.entries, s.typeIndex, a, b, Types);
    PurgeTwice(s.entries, s.entityIndex, a, b, Entities);
  }

  lemma PurgeTwice(entries: map<string, CachedResponse>, idx: Index, a: set<string>, b: set<string>, want: Want)
    ensures Purge(entries - a, Purge(entries, idx, a, want), b, want) == Purge(entries, idx, a + b, want)
  {
    forall n | n in idx
      ensures idx[n] - Gone(entries, a, n, want) - Gone(entries - a, b, n, want) == idx[n] - Gone(entries, a + b, n, want)
    {
    }
  }

  lemma DropNothing(s: State)
    requires NonEmpty(s.typeIndex) && NonEmpty(s.entityIndex)
    ensures Drop(s, {}) == s
  {
    assert s.entries - {} == s.entries;
    PurgeNothing(s.entries, s.typeIndex, {}, Types);
    PurgeNothing(s.entries, s.entityIndex, {}, Entities);
  }

  lemma PurgeNothing(entries: map<string, CachedResponse>, idx: Index, keys: set<string>, want: Want)
    requires NonEmpty(idx) && keys !! entries.Keys
    ensures Purge(entries, idx, keys, want) == idx
  {
    forall n | n in idx
      ensures idx[n] - Gone(entries, keys, n, want) == idx[n]
    {
    }
  }

  lemma DropKeepsNonEmpty(s: State, keys: set<string>)
    ensures NonEmpty(Drop(s, keys).typeIndex) && NonEmpty(Drop(s, keys).entityIndex)
  {
  }

  /** One by one and key by key is the same as at once. */
  lemma RemoveOneIsDrop(s: State, key: string)
    requires NonEmpty(s.typeIndex) && NonEmpty(s.entityIndex)
    ensures RemoveOne(s, key) == Drop(s, {key})
  {
    if key in s.entries {
      var e := s.entries[key];
      UnlinkIsPurge(s.entries, s.typeIndex, key, Types);
      UnlinkIsPurge(s.entries, s.entityIndex, key, Entities);
    } else {
      assert s.entries - {key} == s.entries;
      PurgeNothing(s.entries, s.typeIndex, {key}, Types);
      PurgeNothing(s.entries, s.entityIndex, {key}, Entities);
    }
  }

  lemma UnlinkIsPurge(entries: map<string, CachedResponse>, idx: Index, key: string, want: Want)
    requires key in entries && NonEmpty(idx)
    ensures Unlink(idx, Names(want, entries[key]), key) == Purge(entries, idx, {key}, want)
  {
    var names := Names(want, entries[key]);
    forall n | n in idx
      ensures idx[n] - Gone(entries, {key}, n, want) == if n in names then idx[n] - {key} else idx[n]
    {
      assert Gone(entries, {key}, n, want) == if n in names then {key} else {};
    }
  }

  lemma {:induction false} RemoveAllIsDrop(s: State, keys: seq<string>)
    requires NonEmpty(s.typeIndex) && NonEmpty(s.entityIndex)
    ensures RemoveAll(s, keys) == Drop(s, Elements(keys))
    decreases |keys|
  {
    if keys == [] {
      assert Elements(keys) == {};
      DropNothing(s);
    } else {
      RemoveOneIsDrop(s, keys[0]);
      DropKeepsNonEmpty(s, {keys[0]});
      RemoveAllIsDrop(RemoveOne(s, keys[0]), keys[1..]);
      DropTwice(s, {keys[0]}, Elements(keys[1..]));
      assert keys == [keys[0]] + keys[1..];
      assert {keys[0]} + Elements(keys[1..]) == Elements(keys);
    }
  }

  lemma RemoveKeepsInv(s: State, keys: set<string>)
    requires Inv(s)
    ensures Inv(Remove(s, keys))
  {
    WithoutElements(s.order, keys);
    DropKeepsNonEmpty(s, keys);
    CompleteKept(s, keys, Types);
    CompleteKept(s, keys, Entities);
  }

  lemma CompleteKept(s: State, keys: set<string>, want: Want)
    requires Complete(s, want)
    ensures Complete(Remove(s, keys), want)
  {
    var idx, s' := IndexOf(want, s), Remove(s, keys);
    forall k, n | k in s'.entries && n in Names(want, s'.entries[k])
      ensures k in Under(IndexOf(want, s'), n)
    {
      assert k in Under(idx, n) && k !in Gone(s.entries, keys, n, want);
      assert k in idx[n] - Gone(s.entries, keys, n, want);
    }
  }

  lemma InsertKeepsInv(s: State, key: string, e: CachedResponse)
    requires Inv(s)
    ensures Inv(Insert(s, key, e))
  {
    hide Without;
    WithoutElements(s.order, {key});
    var s' := Insert(s, key, e);
    assert forall k :: k in s'.order <==> k in Without(s.order, {key}) || k == key;
    LinkKeepsNonEmpty(s.typeIndex, e.types, key);
    LinkKeepsNonEmpty(s.entityIndex, e.entities, key);
    forall want, k, n | k in s'.entries && n in Names(want, s'.entries[k])
      ensures k in Under(IndexOf(want, s'), n)
    {
      if k != key {
        assert k in Under(IndexOf(want, s), n);
      }
    }
  }

  lemma PutKeepsInv(s: State, maxSize: nat, key: string, e: CachedResponse)
    requires Inv(s)
    ensures Inv(Put(s, maxSize, key, e))
  {
    RemoveKeepsInv(s, Evicted(s, maxSize));
    InsertKeepsInv(Remove(s, Evicted(s, maxSize)), key, e);
  }

  // ----- counting -----

  lemma {:induction false} OrderSize(order: seq<string>)
    requires NoDup(order)
    ensures |Elements(order)| == |order|
  {
    if order != [] {
      var rest := order[1..];
      assert order == [order[0]] + rest;
      assert forall j :: 0 <= j < |rest| ==> rest[j] == order[j + 1];
      assert order[0] !in rest;
      OrderSize(rest);
      assert Elements(order) == {order[0]} + Elements(rest);
    } else {
      assert Elements(order) == {};
    }
  }

  lemma EntriesListed(s: State)
    requires OrderOk(s)
    ensures |s.entries| == |s.order|
  {
    OrderSize(s.order);
    assert Elements(s.order) == s.entries.Keys;
  }

  /** Taking the first n of a list without duplicates off its front. */
  lemma {:induction false} WithoutPrefix(order: seq<string>, n: nat)
    requires NoDup(order) && n <= |order|
    ensures Without(order, Elements(order[..n])) == order[n..]
  {
    var keys := Elements(order[..n]);
    forall j | n <= j < |order|
      ensures order[j] !in keys
    {
    }
    forall j | 0 <= j < n
      ensures order[j] in keys
    {
      assert order[..n][j] == order[j];
    }
    WithoutSplit(order, keys, n);
  }

  lemma {:induction false} WithoutSplit(order: seq<string>, keys: set<string>, n: nat)
    requires n <= |order|
    requires (forall j :: 0 <= j < n ==> order[j] in keys) && (forall j :: n <= j < |order| ==> order[j] !in keys)
    ensures Without(order, keys) == order[n..]
  {
    if order != [] {
      if n > 0 {
        assert order[1..][n - 1..] == order[n..];
        WithoutSplit(order[1..], keys, n - 1);
      } else {
        WithoutSplit(order[1..], keys, 0);
        assert order == [order[0]] + order[1..];
      }
    }
  }

  lemma EmptyInv()
    ensures Inv(EMPTY)
  {
  }

  // ----- the cache itself -----

  class ResponseCache {
    const maxSize: nat
    const invalidateOnMutation: bool
    var entries: map<string, CachedResponse>
    var insertionOrder: seq<string>
    var typeIndex: Index
    var entityIndex: Index

    ghost function Abs(): State
      reads this
    {
      State(entries, insertionOrder, typeIndex, entityIndex)
    }

    ghost predicate Valid()
      reads this
    {
      Inv(Abs())
    }

    constructor (maxSize: nat, invalidateOnMutation: bool)
      ensures this.maxSize == maxSize && this.invalidateOnMutation == invalidateOnMutation && Valid() && Abs() == EMPTY
    {
      this.maxSize, this.invalidateOnMutation := maxSize, invalidateOnMutation;
      entries, insertionOrder, typeIndex, entityIndex := map[], [], map[], map[];
    }

    method PutWithTtl(key: string, response: Json, types: set<string>, entities: set<string>, ttlSecs: nat, now: nat)
      requires Valid()
      modifies this
      ensures Valid()
      ensures Abs() == Put(old(Abs()), maxSize, key, CachedResponse(response, now, ttlSecs, types, entities))
    {
      hide Inv, Remove, Link;
      var entry := CachedResponse(response, now, ttlSecs, types, entities);
      PutKeepsInv(Abs(), maxSize, key, entry);
      EvictIfNeeded();
      entries := entries[key := entry];
      insertionOrder := Without(insertionOrder, {key});
      insertionOrder := insertionOrder + [key];
      typeIndex := AddToIndex(typeIndex, types, key);
      entityIndex := AddToIndex(entityIndex, entities, key);
    }

    method EvictIfNeeded()
      requires Valid()
      modifies this
      ensures Valid() && Abs() == Remove(old(Abs()), Evicted(old(Abs()), maxSize))
    {
      hide Without, Complete, NonEmpty, Purge, NoDup, Elements, Drop, Remove;
      ghost var s := Abs();
      RemoveKeepsInv(s, Evicted(s, maxSize));
      if |entries| >= maxSize {
        var toRemove := |entries| - maxSize + 1;
        var drainCount := if toRemove <= |insertionOrder| then toRemove else |insertionOrder|;
        var keysToRemove := insertionOrder[..drainCount];
        DrainIsRemove(s, drainCount);
        insertionOrder := insertionOrder[drainCount..];
        RemoveEntriesInternal(keysToRemove);
      } else {
        RemoveNothing(s);
      }
    }

    /** Taking the front off the order list and dropping its keys is removing them. */
    static lemma DrainIsRemove(s: State, n: nat)
      requires NoDup(s.order) && n <= |s.order|
      ensures Drop(s.(order := s.order[n..]), Elements(s.order[..n])) == Remove(s, Elements(s.order[..n]))
    {
      hide Purge;
      WithoutPrefix(s.order, n);
    }

    lemma RemoveNothing(s: State)
      requires Inv(s)
      ensures Remove(s, {}) == s
    {
      DropNothing(s);
      WithoutPrefix(s.order, 0);
      assert Elements(s.order[..0]) == {};
    }

    method RemoveEntries(keys: set<string>)
      requires Valid()
      modifies this
      ensures Valid() && Abs() == Remove(old(Abs()), keys)
    {
      RemoveKeepsInv(Abs(), keys);
      var keysVec: seq<string> := [];
      var left := keys;
      while left != {}
        invariant left <= keys && Elements(keysVec) == keys - left
        decreases |left|
      {
        var k :| k in left;
        assert Elements(keysVec + [k]) == Elements(keysVec) + {k};
        keysVec := keysVec + [k];
        left := left - {k};
      }
      assert Elements(keysVec) == keys;
      RemoveEntriesInternal(keysVec);
      insertionOrder := Without(insertionOrder, keys);
    }

    /** Entry by entry, each taken from the indices of the names it carries. */
    method RemoveEntriesInternal(keys: seq<string>)
      requires NonEmpty(typeIndex) && NonEmpty(entityIndex)
      modifies this
      ensures Abs() == Drop(old(Abs()), Elements(keys))
    {
      ghost var s := Abs();
      RemoveAllIsDrop(s, keys);
      var i := 0;
      assert keys[0..] == keys;
      while i < |keys|
        invariant i <= |keys| && RemoveAll(Abs(), keys[i..]) == RemoveAll(s, keys)
      {
        var key := keys[i];
        assert keys[i..][0] == key && keys[i..][1..] == keys[i + 1..];
        if key in entries {
          var entry := entries[key];
          entries := entries - {key};
          typeIndex := RemoveFromIndex(typeIndex, entry.types, key);
          entityIndex := RemoveFromIndex(entityIndex, entry.entities, key);
        }
        i := i + 1;
      }
      assert keys[i..] == [];
    }

    method InvalidateByType(name: string) returns (count: nat)
      requires Valid()
      modifies this
      ensures Valid() && Abs() == Invalidate(old(Abs()), Types, {name}) && count == |Under(old(typeIndex), name)|
    {
      var keys := Under(typeIndex, name);
      assert Filed(typeIndex, {name}) == keys;
      count := |keys|;
      if count > 0 {
        RemoveEntries(keys);
      } else {
        RemoveNothing(Abs());
      }
    }

    method InvalidateByEntity(name: string) returns (count: nat)
      requires Valid()
      modifies this
      ensures Valid() && Abs() == Invalidate(old(Abs()), Entities, {name}) && count == |Under(old(entityIndex), name)|
    {
      var keys := Under(entityIndex, name);
      assert Filed(entityIndex, {name}) == keys;
      count := |keys|;
      if count > 0 {
        RemoveEntries(keys);
      } else {
        RemoveNothing(Abs());
      }
    }

    method InvalidateForMutationResult(response: Json) returns (total: nat)
      requires Valid()
      modifies this
      ensures Valid()
      ensures Abs() == if invalidateOnMutation then InvalidateForMutation(old(Abs()), response) else old(Abs())
      ensures |old(entries)| <= |entries| + total
    {
      hide Inv, Remove, Mentioned, Filed;
      total := 0;
      if !invalidateOnMutation {
        return;
      }
      ghost var s := Abs();
      RemoveNothing(s);
      var types := ExtractNames(Types, response);
      var byType := InvalidateEach(Types, types, s, {});
      ghost var gone := {} + Filed(s.typeIndex, types);
      assert gone == Filed(s.typeIndex, types);
      var entities := ExtractNames(Entities, response);
      var byEntity := InvalidateEach(Entities, entities, s, gone);
      total := byType + byEntity;
    }

    /** Names one after the other, each looked up in the index as it then stands; `gone` has been removed already. */
    method InvalidateEach(want: Want, names: set<string>, ghost s: State, ghost gone: set<string>) returns (total: nat)
      requires Valid() && Inv(s) && Abs() == Remove(s, gone)
      modifies this
      ensures Valid() && Abs() == Remove(s, gone + Filed(IndexOf(want, s), names))
      ensures |old(entries)| <= |entries| + total
    {
      hide Inv, Remove, Under, IndexOf, Filed, Invalidate, Valid, Abs;
      total := 0;
      var left := names;
      ghost var idx := IndexOf(want, s);
      FiledNone(idx, gone);
      assert names - left == {};
      while left != {}
        invariant left <= names && Valid() && Abs() == Remove(s, gone + Filed(idx, names - left))
        invariant |old(entries)| <= |entries| + total
        decreases |left|
      {
        var name :| name in left;
        InvalidateMore(s, gone, names - left, want, name);
        assert names - (left - {name}) == names - left + {name};
        var count := InvalidateBy(want, name);
        total := total + count;
        left := left - {name};
      }
      assert names - left == names;
    }

    static lemma FiledNone(idx: Index, gone: set<string>)
      ensures gone + Filed(idx, {}) == gone
    {
    }

    method InvalidateBy(want: Want, name: string) returns (count: nat)
      requires Valid()
      modifies this
      ensures Valid() && Abs() == Invalidate(old(Abs()), want, {name})
      ensures count == |Under(IndexOf(want, old(Abs())), name)|
      ensures |old(entries)| <= |entries| + count
    {
      ghost var s := Abs();
      RemovedCount(entries, Under(IndexOf(want, s), name));
      assert Filed(IndexOf(want, s), {name}) == Under(IndexOf(want, s), name);
      if want == Types {
        count := InvalidateByType(name);
      } else {
        count := InvalidateByEntity(name);
      }
    }

    /** One more name, after some keys have gone already. */
    static lemma InvalidateMore(s: State, gone: set<string>, names: set<string>, want: Want, name: string)
      requires Inv(s)
      ensures var idx := IndexOf(want, s);
        Invalidate(Remove(s, gone + Filed(idx, names)), want, {name}) == Remove(s, gone + Filed(idx, names + {name}))
    {
      hide Inv, Drop, Purge;
      var idx := IndexOf(want, s);
      var before, after := gone + Filed(idx, names), gone + Filed(idx, names + {name});
      var r := Remove(s, before);
      var keys := Filed(IndexOf(want, r), {name});
      assert after == before + Under(idx, name);
      UnderAfter(s, before, want, name);
      assert keys == Under(IndexOf(want, r), name);
      assert before + keys == after;
      DropTwice(s, before, keys);
      DropIgnoresOrder(s, Without(s.order, before), before, keys);
      WithoutTwice(s.order, before, keys);
    }

    static lemma DropIgnoresOrder(s: State, order: seq<string>, a: set<string>, b: set<string>)
      ensures Drop(Drop(s, a).(order := order), b) == Drop(Drop(s, a), b).(order := order)
    {
    }

    /** What is filed under a name and has not gone yet is still filed under it. */
    static lemma UnderAfter(s: State, gone: set<string>, want: Want, name: string)
      ensures gone + Under(IndexOf(want, Remove(s, gone)), name) == gone + Under(IndexOf(want, s), name)
    {
      var idx := IndexOf(want, s);
      var lost := Gone(s.entries, gone, name, want);
      assert lost <= gone;
      assert Under(IndexOf(want, Remove(s, gone)), name) == Under(idx, name) - lost;
    }

    static lemma RemovedCount(entries: map<string, CachedResponse>, keys: set<string>)
      ensures |entries| <= |entries - keys| + |keys|
    {
      var kept, lost := entries.Keys - keys, entries.Keys * keys;
      assert (entries - keys).Keys == kept && entries.Keys == kept + lost;
      SubsetSize(lost, keys);
    }

    static lemma {:induction false} WithoutTwice(order: seq<string>, a: set<string>, b: set<string>)
      ensures Without(Without(order, a), b) == Without(order, a + b)
    {
      if order != [] {
        WithoutTwice(order[1..], a, b);
        if order[0] in a {
          assert Without(order, a) == Without(order[1..], a);
          assert Without(order, a + b) == Without(order[1..], a + b);
        } else {
          assert Without(order, a)[0] == order[0] && Without(order, a)[1..] == Without(order[1..], a);
        }
      }
    }

    method Clear()
      modifies this
      ensures Valid() && Abs() == EMPTY
    {
      entries, insertionOrder, typeIndex, entityIndex := map[], [], map[], map[];
    }

    // ----- walking a response -----

    static method ExtractNames(want: Want, v: Json) returns (names: set<string>)
      ensures names == Mentioned(want, v)
    {
      names := ExtractRecursive(want, v, {});
    }

    /** Names found in a value are added to those found before. */
    static method ExtractRecursive(want: Want, v: Json, names: set<string>) returns (names': set<string>)
      ensures names' == names + Mentioned(want, v)
      decreases v, 1
    {
      hide Mentioned, InFields, InItems;
      Whole(want, v);
      match v
      case Obj(fields) =>
        var found := if want == Types then TypeName(v) else EntityKey(v);
        names' := if found.Some? then names + {found.value} else names;
        assert names' == names + Here(want, v);
        names' := ExtractFields(want, v, names');
      case Arr(items) => names' := ExtractItems(want, v, names);
      case _ => names' := names;
    }

    static method ExtractFields(want: Want, v: Json, names: set<string>) returns (names': set<string>)
      requires v.Obj?
      ensures names' == names + InFields(want, v.fields, v.fields.Keys)
      decreases v, 0
    {
      hide Mentioned, InFields;
      names' := names;
      var left := v.fields.Keys;
      Whole(want, v);
      assert v.fields.Keys - left == {};
      while left != {}
        invariant left <= v.fields.Keys
        invariant names' == names + InFields(want, v.fields, v.fields.Keys - left)
        decreases |left|
      {
        var k :| k in left;
        OneMoreField(want, v.fields, v.fields.Keys - left, k);
        assert v.fields.Keys - (left - {k}) == v.fields.Keys - left + {k};
        names' := ExtractRecursive(want, v.fields[k], names');
        left := left - {k};
      }
      assert v.fields.Keys - left == v.fields.Keys;
    }

    static method ExtractItems(want: Want, v: Json, names: set<string>) returns (names': set<string>)
      requires v.Arr?
      ensures names' == names + InItems(want, v.items, |v.items|)
      decreases v, 0
    {
      hide Mentioned, InItems;
      names' := names;
      Whole(want, v);
      var i := 0;
      while i < |v.items|
        invariant i <= |v.items|
        invariant names' == names + InItems(want, v.items, i)
      {
        OneMoreItem(want, v.items, i);
        names' := ExtractRecursive(want, v.items[i], names');
        i := i + 1;
      }
    }

    static ghost function InFields(want: Want, fields: map<string, Json>, keys: set<string>): set<string> {
      set k, t | k in keys && k in fields && t in Mentioned(want, fields[k]) :: t
    }

    static ghost function InItems(want: Want, items: seq<Json>, n: nat): set<string>
      requires n <= |items|
    {
      set i, t | 0 <= i < n && t in Mentioned(want, items[i]) :: t
    }

    static lemma OneMoreField(want: Want, fields: map<string, Json>, keys: set<string>, k: string)
      requires k in fields
      ensures InFields(want, fields, keys + {k}) == InFields(want, fields, keys) + Mentioned(want, fields[k])
    {
      hide Mentioned;
    }

    static lemma OneMoreItem(want: Want, items: seq<Json>, n: nat)
      requires n < |items|
      ensures InItems(want, items, n + 1) == InItems(want, items, n) + Mentioned(want, items[n])
    {
      hide Mentioned;
    }

    static lemma Whole(want: Want, v: Json)
      ensures v.Obj? ==> Mentioned(want, v) == Here(want, v) + InFields(want, v.fields, v.fields.Keys)
      ensures v.Obj? ==> InFields(want, v.fields, {}) == {}
      ensures v.Arr? ==> Mentioned(want, v) == InItems(want, v.items, |v.items|) && InItems(want, v.items, 0) == {}
      ensures !v.Obj? && !v.Arr? ==> Mentioned(want, v) == {}
    {
      if v.Obj? {
        var inner := set k, t | k in v.fields && t in Mentioned(want, v.fields[k]) :: t;
        assert inner == InFields(want, v.fields, v.fields.Keys);
      }
    }
  }
}
