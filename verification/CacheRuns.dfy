/**
 Runs of the cache's operations, beside a reference that knows nothing of indices: a list of
 entries ordered by last write, and the filings, pairs of a key and a name it was written under.
 Every run refines the reference.  The filings of a key can outlive its entry, and an
 invalidation then removes more than carries the name; when it does is stated exactly.
 */
module CacheRuns {
  import opened Sets
  import opened InvertedIndex
  import opened JsonTree
  import opened ResponseCache

  type Entries = seq<(string, CachedResponse)>

  /** A key and a name it is filed under. */
  type Filing = (string, string)

  // ----- the reference ----------------------------------------------------------------

  datatype Book = Book(list: Entries, types: set<Filing>, entities: set<Filing>)

  function Omit(l: Entries, keys: set<string>): Entries {
    if l == [] then [] else (if l[0].0 in keys then [] else [l[0]]) + Omit(l[1..], keys)
  }

  /** The filings of some keys that their entries account for. */
  function Carried(l: Entries, keys: set<string>, want: Want): set<Filing> {
    set i, n | 0 <= i < |l| && l[i].0 in keys && n in Names(want, l[i].1) :: (l[i].0, n)
  }

  /** Entries go, and with each the filings it accounts for now; earlier ones of its key stay. */
  function Strike(b: Book, keys: set<string>): Book {
    Book(Omit(b.list, keys), b.types - Carried(b.list, keys, Types), b.entities - Carried(b.list, keys, Entities))
  }

  /** How many of n entries make room for one more. */
  function Surplus(n: nat, maxSize: nat): (m: nat)
    ensures m <= n
  {
    if n < maxSize then 0 else if maxSize == 0 then n else n - maxSize + 1
  }

  function KeysOf(l: Entries): set<string> {
    set i | 0 <= i < |l| :: l[i].0
  }

  function FilingsFor(key: string, names: set<string>): set<Filing> {
    set n | n in names :: (key, n)
  }

  /** The oldest go when the list is full, the written key moves to the end and is filed anew. */
  function Write(b: Book, maxSize: nat, key: string, e: CachedResponse): Book {
    var room := Strike(b, KeysOf(b.list[..Surplus(|b.list|, maxSize)]));
    Book(Omit(room.list, {key}) + [(key, e)], room.types + FilingsFor(key, e.types), room.entities + FilingsFor(key, e.entities))
  }

  function KeysUnder(filed: set<Filing>, names: set<string>): set<string> {
    set f | f in filed && f.1 in names :: f.0
  }

  datatype Op =
    | PutOp(key: string, entry: CachedResponse)
    | InvalidateOp(want: Want, name: string)
    | MutationOp(response: Json)
    | ClearOp

  function Do(s: State, maxSize: nat, op: Op): State {
    match op
    case PutOp(key, entry) => Put(s, maxSize, key, entry)
    case InvalidateOp(want, name) => Invalidate(s, want, {name})
    case MutationOp(response) => InvalidateForMutation(s, response)
    case ClearOp => EMPTY
  }

  function Run(s: State, maxSize: nat, ops: seq<Op>): State
    decreases |ops|
  {
    if ops == [] then s else Run(Do(s, maxSize, ops[0]), maxSize, ops[1..])
  }

  function BookDo(b: Book, maxSize: nat, op: Op): Book {
    match op
    case PutOp(key, entry) => Write(b, maxSize, key, entry)
    case InvalidateOp(want, name) => Strike(b, KeysUnder(if want == Types then b.types else b.entities, {name}))
    case MutationOp(response) =>
      Strike(b, KeysUnder(b.types, Mentioned(Types, response)) + KeysUnder(b.entities, Mentioned(Entities, response)))
    case ClearOp => Book([], {}, {})
  }

  function BookRun(b: Book, maxSize: nat, ops: seq<Op>): Book
    decreases |ops|
  {
    if ops == [] then b else BookRun(BookDo(b, maxSize, ops[0]), maxSize, ops[1..])
  }

  // ----- the cache as such a book -----------------------------------------------------

  /** The cached entries, oldest write first. */
  function Listing(order: seq<string>, entries: map<string, CachedResponse>): (l: Entries)
    requires forall k :: k in order ==> k in entries
    ensures |l| == |order|
  {
    seq(|order|, i requires 0 <= i < |order| => (order[i], entries[order[i]]))
  }

  function ListOf(s: State): Entries
    requires OrderOk(s)
  {
    Listing(s.order, s.entries)
  }

  function Filings(idx: Index): set<Filing> {
    set n, k | n in idx && k in idx[n] :: (k, n)
  }

  function BookOf(s: State): Book
    requires OrderOk(s)
  {
    Book(ListOf(s), Filings(s.typeIndex), Filings(s.entityIndex))
  }

  lemma {:induction false} ListingWithout(order: seq<string>, entries: map<string, CachedResponse>, keys: set<string>)
    requires forall k :: k in order ==> k in entries
    ensures forall k :: k in Without(order, keys) ==> k in entries - keys
    ensures Listing(Without(order, keys), entries - keys) == Omit(Listing(order, entries), keys)
  {
    WithoutElements(order, keys);
    if order != [] {
      assert order == [order[0]] + order[1..];
      var l := Listing(order, entries);
      assert l[1..] == Listing(order[1..], entries);
      ListingWithout(order[1..], entries, keys);
      if order[0] !in keys {
        assert Listing(Without(order, keys), entries - keys) == [l[0]] + Listing(Without(order[1..], keys), entries - keys);
      }
    }
  }

  lemma InsertRefines(s: State, key: string, e: CachedResponse)
    requires Inv(s)
    ensures OrderOk(Insert(s, key, e)) && ListOf(Insert(s, key, e)) == Omit(ListOf(s), {key}) + [(key, e)]
  {
    hide Complete, NonEmpty;
    InsertKeepsInv(s, key, e);
    ListingWithout(s.order, s.entries, {key});
    WithoutElements(s.order, {key});
    var p := Insert(s, key, e);
    forall i | 0 <= i < |p.order|
      ensures ListOf(p)[i] == (Omit(ListOf(s), {key}) + [(key, e)])[i]
    {
      if i < |p.order| - 1 {
        assert p.order[i] == Without(s.order, {key})[i];
      }
    }
  }

  lemma {:induction false} OmitShortens(l: Entries, keys: set<string>)
    ensures |Omit(l, keys)| <= |l|
  {
    if l != [] {
      OmitShortens(l[1..], keys);
    }
  }

  lemma EntriesCount(s: State)
    requires Inv(s)
    ensures OrderOk(s) && |ListOf(s)| == |s.entries|
  {
    EntriesListed(s);
  }

  lemma EvictedIsOldest(s: State, maxSize: nat)
    requires Inv(s)
    ensures Evicted(s, maxSize) == KeysOf(ListOf(s)[..Surplus(|ListOf(s)|, maxSize)])
  {
    hide Complete, NonEmpty;
    EntriesListed(s);
    var n := Surplus(|s.order|, maxSize);
    var l := ListOf(s);
    forall i | 0 <= i < n
      ensures l[..n][i].0 == s.order[..n][i]
    {
    }
    assert KeysOf(l[..n]) == Elements(s.order[..n]);
  }

  lemma FilingsPurged(s: State, keys: set<string>, want: Want)
    requires Inv(s)
    ensures Filings(IndexOf(want, Remove(s, keys))) == Filings(IndexOf(want, s)) - Carried(ListOf(s), keys, want)
  {
    hide Complete, NonEmpty, NoDup, Without, Remove, Filings, Carried, Gone;
    var idx, idx' := IndexOf(want, s), IndexOf(want, Remove(s, keys));
    forall f: Filing
      ensures f in Filings(idx') <==> f in Filings(idx) && f !in Carried(ListOf(s), keys, want)
    {
      var (k, n) := f;
      CarriedIff(s, keys, want, k, n);
      FilingsIff(idx, k, n);
      FilingsIff(idx', k, n);
      RemovedUnder(s, keys, want, k, n);
    }
  }

  lemma FilingsIff(idx: Index, k: string, n: string)
    ensures (k, n) in Filings(idx) <==> k in Under(idx, n)
  {
  }

  lemma RemovedUnder(s: State, keys: set<string>, want: Want, k: string, n: string)
    ensures k in Under(IndexOf(want, Remove(s, keys)), n)
       <==> k in Under(IndexOf(want, s), n) && !(k in keys && k in s.entries && n in Names(want, s.entries[k]))
  {
    hide Without;
    assert k in Gone(s.entries, keys, n, want) <==> k in keys && k in s.entries && n in Names(want, s.entries[k]);
  }

  lemma CarriedIff(s: State, keys: set<string>, want: Want, k: string, n: string)
    requires Inv(s)
    ensures (k, n) in Carried(ListOf(s), keys, want) <==> k in keys && k in s.entries && n in Names(want, s.entries[k])
  {
    hide Complete, NonEmpty, NoDup, Names;
    if k in s.entries {
      var i :| 0 <= i < |s.order| && s.order[i] == k;
      assert ListOf(s)[i] == (k, s.entries[k]);
    }
  }

  lemma RemoveIsStrike(s: State, keys: set<string>)
    requires Inv(s)
    ensures Inv(Remove(s, keys)) && BookOf(Remove(s, keys)) == Strike(BookOf(s), keys)
  {
    hide Carried, Filings, Purge, Without, NoDup, Complete, NonEmpty;
    RemoveKeepsInv(s, keys);
    ListingWithout(s.order, s.entries, keys);
    FilingsPurged(s, keys, Types);
    FilingsPurged(s, keys, Entities);
  }

  lemma FilingsLinked(idx: Index, names: set<string>, key: string)
    ensures Filings(Link(idx, names, key)) == Filings(idx) + FilingsFor(key, names)
  {
    var l := Link(idx, names, key);
    forall k, n
      ensures (k, n) in Filings(l) <==> (k, n) in Filings(idx) || (k, n) in FilingsFor(key, names)
    {
    }
  }

  lemma FilingsUnder(idx: Index, names: set<string>)
    ensures KeysUnder(Filings(idx), names) == Filed(idx, names)
  {
    forall k
      ensures k in KeysUnder(Filings(idx), names) <==> k in Filed(idx, names)
    {
      if k in KeysUnder(Filings(idx), names) {
        var f :| f in Filings(idx) && f.1 in names && f.0 == k;
        assert k in Under(idx, f.1);
      }
      if k in Filed(idx, names) {
        var n :| n in names && k in Under(idx, n);
        assert (k, n) in Filings(idx);
      }
    }
  }

  /** A put writes the key into the book. */
  lemma PutRefines(s: State, maxSize: nat, key: string, e: CachedResponse)
    requires Inv(s)
    ensures Inv(Put(s, maxSize, key, e)) && BookOf(Put(s, maxSize, key, e)) == Write(BookOf(s), maxSize, key, e)
  {
    hide Inv, Remove, Link, Omit, Carried, Filings, NoDup, Without, Strike;
    var r := Remove(s, Evicted(s, maxSize));
    PutKeepsInv(s, maxSize, key, e);
    InvOrdered(s);
    EvictedIsOldest(s, maxSize);
    RemoveIsStrike(s, Evicted(s, maxSize));
    InsertRefines(r, key, e);
    FilingsLinked(r.typeIndex, e.types, key);
    FilingsLinked(r.entityIndex, e.entities, key);
  }

  lemma InvOrdered(s: State)
    requires Inv(s)
    ensures OrderOk(s)
  {
  }

  /** Every operation does to the book exactly what the reference does. */
  lemma StepRefines(s: State, maxSize: nat, op: Op)
    requires Inv(s)
    ensures Inv(Do(s, maxSize, op)) && BookOf(Do(s, maxSize, op)) == BookDo(BookOf(s), maxSize, op)
  {
    hide Inv, OrderOk, Put, Write, Remove, Strike, Mentioned, KeysUnder, Filed, Filings, Listing;
    InvOrdered(s);
    match op
    case PutOp(key, entry) => PutRefines(s, maxSize, key, entry);
    case InvalidateOp(want, name) =>
      FilingsUnder(IndexOf(want, s), {name});
      RemoveIsStrike(s, Filed(IndexOf(want, s), {name}));
    case MutationOp(response) =>
      var types, entities := Mentioned(Types, response), Mentioned(Entities, response);
      FilingsUnder(s.typeIndex, types);
      FilingsUnder(s.entityIndex, entities);
      RemoveIsStrike(s, Filed(s.typeIndex, types) + Filed(s.entityIndex, entities));
    case ClearOp => EmptyRefines();
  }

  lemma EmptyRefines()
    ensures Inv(EMPTY) && BookOf(EMPTY) == Book([], {}, {})
  {
    EmptyInv();
  }

  /** So does every run. */
  lemma {:induction false} RunRefines(s: State, maxSize: nat, ops: seq<Op>)
    requires Inv(s)
    ensures Inv(Run(s, maxSize, ops)) && BookOf(Run(s, maxSize, ops)) == BookRun(BookOf(s), maxSize, ops)
    decreases |ops|
  {
    hide Inv, OrderOk, BookDo, Do, Listing, Filings;
    InvOrdered(s);
    if ops != [] {
      StepRefines(s, maxSize, ops[0]);
      RunRefines(Do(s, maxSize, ops[0]), maxSize, ops[1..]);
    }
  }

  // ----- how many there are -----------------------------------------------------------

  /** Room for one entry there is always. */
  function Bound(maxSize: nat): nat {
    if maxSize == 0 then 1 else maxSize
  }

  lemma {:induction false} OmitOldest(l: Entries, n: nat)
    requires n <= |l| && forall i, j :: 0 <= i < j < |l| ==> l[i].0 != l[j].0
    ensures Omit(l, KeysOf(l[..n])) == l[n..]
  {
    forall j | n <= j < |l|
      ensures l[j].0 !in KeysOf(l[..n])
    {
    }
    forall j | 0 <= j < n
      ensures l[j].0 in KeysOf(l[..n])
    {
      assert l[..n][j] == l[j];
    }
    OmitSplit(l, KeysOf(l[..n]), n);
  }

  lemma {:induction false} OmitSplit(l: Entries, keys: set<string>, n: nat)
    requires n <= |l|
    requires (forall j :: 0 <= j < n ==> l[j].0 in keys) && (forall j :: n <= j < |l| ==> l[j].0 !in keys)
    ensures Omit(l, keys) == l[n..]
  {
    if l != [] {
      if n > 0 {
        assert l[1..][n - 1..] == l[n..];
        OmitSplit(l[1..], keys, n - 1);
      } else {
        OmitSplit(l[1..], keys, 0);
        assert l == [l[0]] + l[1..];
      }
    }
  }

  /** What a put leaves of the list: the newest there is room for, less the key, then the entry. */
  lemma PutList(s: State, maxSize: nat, key: string, e: CachedResponse)
    requires Inv(s)
    ensures OrderOk(Put(s, maxSize, key, e))
    ensures ListOf(Put(s, maxSize, key, e)) == Omit(ListOf(s)[Surplus(|ListOf(s)|, maxSize)..], {key}) + [(key, e)]
  {
    hide Omit, Complete, NonEmpty, Put, Filings, Carried;
    PutRefines(s, maxSize, key, e);
    OmitOldest(ListOf(s), Surplus(|ListOf(s)|, maxSize));
  }

  /** No operation leaves more entries than the capacity, or than one if that is 0. */
  lemma StepBounded(s: State, maxSize: nat, op: Op)
    requires Inv(s) && |s.entries| <= Bound(maxSize)
    ensures |Do(s, maxSize, op).entries| <= Bound(maxSize)
  {
    hide Inv, OrderOk, Put, Remove, Strike, Mentioned, Filed, Filings, Listing, Omit;
    InvOrdered(s);
    StepRefines(s, maxSize, op);
    EntriesCount(s);
    EntriesCount(Do(s, maxSize, op));
    match op
    case PutOp(key, entry) =>
      PutList(s, maxSize, key, entry);
      OmitShortens(ListOf(s)[Surplus(|ListOf(s)|, maxSize)..], {key});
    case InvalidateOp(want, name) =>
      StrikeShortens(BookOf(s), KeysUnder(if want == Types then BookOf(s).types else BookOf(s).entities, {name}));
    case MutationOp(response) =>
      StrikeShortens(BookOf(s), KeysUnder(BookOf(s).types, Mentioned(Types, response))
                                + KeysUnder(BookOf(s).entities, Mentioned(Entities, response)));
    case ClearOp =>
  }

  lemma StrikeShortens(b: Book, keys: set<string>)
    ensures |Strike(b, keys).list| <= |b.list|
  {
    OmitShortens(b.list, keys);
  }

  lemma {:induction false} RunBounded(s: State, maxSize: nat, ops: seq<Op>)
    requires Inv(s) && |s.entries| <= Bound(maxSize)
    ensures |Run(s, maxSize, ops).entries| <= Bound(maxSize)
    decreases |ops|
  {
    hide Inv, Do;
    if ops != [] {
      StepRefines(s, maxSize, ops[0]);
      StepBounded(s, maxSize, ops[0]);
      RunBounded(Do(s, maxSize, ops[0]), maxSize, ops[1..]);
    }
  }

  // ----- nothing stays that should go -------------------------------------------------

  /**
   After any run, a mutation leaves no entry that carries a type or an entity found at
   any depth of its response.
   */
  lemma MutationLeavesNoTrace(maxSize: nat, ops: seq<Op>, response: Json, want: Want, path: seq<Step>, name: string,
    key: string)
    requires MentionedAt(want, response, path, name)
    requires key in Run(EMPTY, maxSize, ops + [MutationOp(response)]).entries
    ensures name !in Names(want, Run(EMPTY, maxSize, ops + [MutationOp(response)]).entries[key])
  {
    hide Run, Mentioned, Filed, Purge, OrderOk, NonEmpty, Without;
    EmptyRefines();
    RunRefines(EMPTY, maxSize, ops);
    RunAppend(EMPTY, maxSize, ops, MutationOp(response));
    var s := Run(EMPTY, maxSize, ops);
    MentionedAtIsMentioned(want, response, path, name);
    if name in Names(want, s.entries[key]) {
      FiledAll(s, want, Mentioned(want, response), key, name);
    }
  }

  lemma FiledAll(s: State, want: Want, names: set<string>, key: string, name: string)
    requires Inv(s) && name in names && key in s.entries && name in Names(want, s.entries[key])
    ensures key in Filed(IndexOf(want, s), names)
  {
    FiledOne(IndexOf(want, s), names, name, key);
  }

  lemma {:induction false} RunAppend(s: State, maxSize: nat, ops: seq<Op>, op: Op)
    ensures Run(s, maxSize, ops + [op]) == Do(Run(s, maxSize, ops), maxSize, op)
    decreases |ops|
  {
    if ops == [] {
      assert ops + [op] == [op] && [op][1..] == [];
    } else {
      assert (ops + [op])[1..] == ops[1..] + [op];
      RunAppend(Do(s, maxSize, ops[0]), maxSize, ops[1..], op);
    }
  }

  // ----- when no more goes than should ------------------------------------------------

  /** The index files a key under a name exactly when its entry carries the name. */
  ghost predicate Exact(s: State, want: Want) {
    forall k, n :: k in Under(IndexOf(want, s), n) <==> k in s.entries && n in Names(want, s.entries[k])
  }

  /** Writing keeps that exactly when the key is new or its entry carries no name that the new one lacks. */
  lemma InsertExactIff(s: State, key: string, e: CachedResponse, want: Want)
    requires Inv(s) && Exact(s, want)
    ensures Exact(Insert(s, key, e), want) <==> (key in s.entries ==> Names(want, s.entries[key]) <= Names(want, e))
  {
    hide Link, Under, OrderOk, Complete, NonEmpty, Without, Names;
    var s', idx := Insert(s, key, e), IndexOf(want, s);
    forall k, n
      ensures k in Under(IndexOf(want, s'), n) <==> k in Under(idx, n) || (k == key && n in Names(want, e))
    {
      InsertedUnder(s, key, e, want, n);
    }
    if key in s.entries && !(Names(want, s.entries[key]) <= Names(want, e)) {
      var n :| n in Names(want, s.entries[key]) && n !in Names(want, e);
      assert key in Under(IndexOf(want, s'), n) && n !in Names(want, s'.entries[key]);
    }
  }

  lemma InsertedUnder(s: State, key: string, e: CachedResponse, want: Want, n: string)
    requires Inv(s)
    ensures Under(IndexOf(want, Insert(s, key, e)), n)
         == if n in Names(want, e) then Under(IndexOf(want, s), n) + {key} else Under(IndexOf(want, s), n)
  {
    hide Link, Under, Without;
    UnderLinked(IndexOf(want, s), Names(want, e), key, n);
  }

  lemma RemoveKeepsExact(s: State, keys: set<string>, want: Want)
    requires Inv(s) && Exact(s, want)
    ensures Exact(Remove(s, keys), want)
  {
    hide OrderOk, Complete, NonEmpty, Without, Purge, Under, Names;
    forall k, n
      ensures k in Under(IndexOf(want, Remove(s, keys)), n)
         <==> k in Under(IndexOf(want, s), n) && !(k in keys && k in s.entries && n in Names(want, s.entries[k]))
    {
      RemovedUnder(s, keys, want, k, n);
    }
  }

  lemma PutExactIff(s: State, maxSize: nat, key: string, e: CachedResponse, want: Want)
    requires Inv(s) && Exact(s, want)
    ensures Exact(Put(s, maxSize, key, e), want)
       <==> (key in s.entries && key !in Evicted(s, maxSize) ==> Names(want, s.entries[key]) <= Names(want, e))
  {
    hide Inv, Exact, Evicted;
    var r := Remove(s, Evicted(s, maxSize));
    RemoveKeepsInv(s, Evicted(s, maxSize));
    RemoveKeepsExact(s, Evicted(s, maxSize), want);
    InsertExactIff(r, key, e, want);
  }

  /** The keys of the entries that carry one of the names. */
  function Carrying(l: Entries, want: Want, names: set<string>): set<string> {
    set i | 0 <= i < |l| && Names(want, l[i].1) * names != {} :: l[i].0
  }

  /** An invalidation removes just the entries that carry the name iff no cached key is filed under it besides. */
  lemma InvalidationPreciseIff(s: State, want: Want, name: string)
    requires Inv(s)
    ensures OrderOk(Invalidate(s, want, {name}))
    ensures ListOf(Invalidate(s, want, {name})) == Omit(ListOf(s), Carrying(ListOf(s), want, {name}))
       <==> forall k :: k in s.entries && k in Under(IndexOf(want, s), name) ==> name in Names(want, s.entries[k])
  {
    var keys := Filed(IndexOf(want, s), {name});
    var l := ListOf(s);
    assert keys == Under(IndexOf(want, s), name);
    RemoveIsStrike(s, keys);
    OmitSameIff(l, keys, Carrying(l, want, {name}));
    forall k | k in s.entries
      ensures k in Carrying(l, want, {name}) <==> name in Names(want, s.entries[k])
      ensures name in Names(want, s.entries[k]) ==> k in keys
    {
      CarryingIff(s, want, {name}, k);
      assert name in Names(want, s.entries[k]) ==> Names(want, s.entries[k]) * {name} == {name};
    }
    forall k | k in s.entries
      ensures exists i :: 0 <= i < |l| && l[i].0 == k
    {
      var i :| 0 <= i < |s.order| && s.order[i] == k;
      assert l[i].0 == k;
    }
    assert forall i :: 0 <= i < |l| ==> l[i].0 in s.entries;
  }

  lemma CarryingIff(s: State, want: Want, names: set<string>, k: string)
    requires Inv(s)
    ensures k in Carrying(ListOf(s), want, names) <==> k in s.entries && Names(want, s.entries[k]) * names != {}
  {
    hide Complete, NonEmpty, NoDup, Names;
    if k in s.entries {
      var i :| 0 <= i < |s.order| && s.order[i] == k;
      assert ListOf(s)[i] == (k, s.entries[k]);
    }
  }

  /** Omitting is the same for two key sets exactly when they agree on the list. */
  lemma {:induction false} OmitSameIff(l: Entries, a: set<string>, b: set<string>)
    ensures Omit(l, a) == Omit(l, b) <==> forall i :: 0 <= i < |l| ==> (l[i].0 in a <==> l[i].0 in b)
  {
    if forall i :: 0 <= i < |l| ==> (l[i].0 in a <==> l[i].0 in b) {
      OmitSame(l, a, b);
    }
    if Omit(l, a) == Omit(l, b) {
      OmitKeys(l, a);
      OmitKeys(l, b);
    }
  }

  lemma {:induction false} OmitSame(l: Entries, a: set<string>, b: set<string>)
    requires forall i :: 0 <= i < |l| ==> (l[i].0 in a <==> l[i].0 in b)
    ensures Omit(l, a) == Omit(l, b)
  {
    if l != [] {
      OmitSame(l[1..], a, b);
    }
  }

  lemma {:induction false} OmitKeys(l: Entries, a: set<string>)
    ensures KeysOf(Omit(l, a)) == KeysOf(l) - a
  {
    if l != [] {
      OmitKeys(l[1..], a);
      KeysOfCons(l[0], l[1..]);
      KeysOfCons(l[0], Omit(l[1..], a));
      assert l == [l[0]] + l[1..];
      assert Omit(l, a) == if l[0].0 in a then Omit(l[1..], a) else [l[0]] + Omit(l[1..], a);
    }
  }

  lemma KeysOfCons(x: (string, CachedResponse), l: Entries)
    ensures KeysOf([x] + l) == {x.0} + KeysOf(l)
  {
    assert ([x] + l)[0] == x;
    forall k | k in KeysOf(l)
      ensures k in KeysOf([x] + l)
    {
      var i :| 0 <= i < |l| && l[i].0 == k;
      assert ([x] + l)[i + 1].0 == k;
    }
  }

  /** The simpler reference: a list only, from which an invalidation takes what carries the names. */
  function PlainDo(l: Entries, maxSize: nat, op: Op): Entries {
    match op
    case PutOp(key, e) => Omit(l[Surplus(|l|, maxSize)..], {key}) + [(key, e)]
    case InvalidateOp(want, name) => Omit(l, Carrying(l, want, {name}))
    case MutationOp(response) =>
      Omit(l, Carrying(l, Types, Mentioned(Types, response)) + Carrying(l, Entities, Mentioned(Entities, response)))
    case ClearOp => []
  }

  function PlainRun(l: Entries, maxSize: nat, ops: seq<Op>): Entries
    decreases |ops|
  {
    if ops == [] then l else PlainRun(PlainDo(l, maxSize, ops[0]), maxSize, ops[1..])
  }

  /** A write over an entry that stays until then keeps all its names. */
  predicate Tidy(l: Entries, maxSize: nat, op: Op) {
    op.PutOp? ==>
      forall i :: Surplus(|l|, maxSize) <= i < |l| && l[i].0 == op.key ==>
        l[i].1.types <= op.entry.types && l[i].1.entities <= op.entry.entities
  }

  predicate TidyRun(l: Entries, maxSize: nat, ops: seq<Op>)
    decreases |ops|
  {
    ops == [] || (Tidy(l, maxSize, ops[0]) && TidyRun(PlainDo(l, maxSize, ops[0]), maxSize, ops[1..]))
  }

  ghost predicate ExactBoth(s: State) {
    Exact(s, Types) && Exact(s, Entities)
  }

  lemma FiledIsCarrying(s: State, want: Want, names: set<string>)
    requires Inv(s) && Exact(s, want)
    ensures Filed(IndexOf(want, s), names) == Carrying(ListOf(s), want, names)
  {
    hide OrderOk, Complete, NonEmpty, Under, Names, Carrying;
    forall k
      ensures k in Filed(IndexOf(want, s), names) <==> k in Carrying(ListOf(s), want, names)
    {
      CarryingIff(s, want, names, k);
      if k in Filed(IndexOf(want, s), names) {
        var n :| n in names && k in Under(IndexOf(want, s), n);
        assert n in Names(want, s.entries[k]) * names;
      }
      if k in Carrying(ListOf(s), want, names) {
        var n :| n in Names(want, s.entries[k]) * names;
        assert k in Under(IndexOf(want, s), n);
      }
    }
  }

  /** With exact indices the cache is the plain list, and stays so exactly when the operation is tidy. */
  lemma StepPrecise(s: State, maxSize: nat, op: Op)
    requires Inv(s) && ExactBoth(s)
    ensures Inv(Do(s, maxSize, op)) && ListOf(Do(s, maxSize, op)) == PlainDo(ListOf(s), maxSize, op)
    ensures ExactBoth(Do(s, maxSize, op)) <==> Tidy(ListOf(s), maxSize, op)
  {
    hide Inv, OrderOk, Exact, Put, Remove, Strike, Mentioned, Carrying, Filed, Filings, Listing, Omit, Tidy;
    InvOrdered(s);
    StepRefines(s, maxSize, op);
    match op
    case PutOp(key, entry) =>
      PutList(s, maxSize, key, entry);
      PutExactIff(s, maxSize, key, entry, Types);
      PutExactIff(s, maxSize, key, entry, Entities);
      TidyIff(s, maxSize, key, entry);
    case InvalidateOp(want, name) =>
      FiledIsCarrying(s, want, {name});
      RemovalPrecise(s, Filed(IndexOf(want, s), {name}));
      TidyOther(ListOf(s), maxSize, op);
    case MutationOp(response) =>
      FiledIsCarrying(s, Types, Mentioned(Types, response));
      FiledIsCarrying(s, Entities, Mentioned(Entities, response));
      RemovalPrecise(s, Filed(s.typeIndex, Mentioned(Types, response)) + Filed(s.entityIndex, Mentioned(Entities, response)));
      TidyOther(ListOf(s), maxSize, op);
    case ClearOp =>
      EmptyExact();
      TidyOther(ListOf(s), maxSize, op);
  }

  lemma EmptyExact()
    ensures ExactBoth(EMPTY) && OrderOk(EMPTY) && ListOf(EMPTY) == []
  {
  }

  lemma TidyOther(l: Entries, maxSize: nat, op: Op)
    requires !op.PutOp?
    ensures Tidy(l, maxSize, op)
  {
  }

  lemma RemovalPrecise(s: State, keys: set<string>)
    requires Inv(s) && ExactBoth(s)
    ensures ExactBoth(Remove(s, keys)) && OrderOk(Remove(s, keys)) && ListOf(Remove(s, keys)) == Omit(ListOf(s), keys)
  {
    hide Inv, Exact, OrderOk;
    InvOrdered(s);
    RemoveIsStrike(s, keys);
    InvOrdered(Remove(s, keys));
    RemoveKeepsExact(s, keys, Types);
    RemoveKeepsExact(s, keys, Entities);
  }

  lemma TidyIff(s: State, maxSize: nat, key: string, e: CachedResponse)
    requires Inv(s)
    ensures Tidy(ListOf(s), maxSize, PutOp(key, e))
       <==> (key in s.entries && key !in Evicted(s, maxSize) ==>
               s.entries[key].types <= e.types && s.entries[key].entities <= e.entities)
  {
    hide Complete, NonEmpty, Evicted;
    EvictedIsOldest(s, maxSize);
    var l, n := ListOf(s), Surplus(|ListOf(s)|, maxSize);
    if key in s.entries {
      var i :| 0 <= i < |s.order| && s.order[i] == key;
      assert l[i] == (key, s.entries[key]);
      if i < n {
        assert l[..n][i].0 == key;
      }
    }
  }

  /** So every run of tidy operations is that of the plain list. */
  lemma {:induction false} RunPrecise(s: State, maxSize: nat, ops: seq<Op>)
    requires Inv(s) && ExactBoth(s) && TidyRun(ListOf(s), maxSize, ops)
    ensures Inv(Run(s, maxSize, ops)) && ListOf(Run(s, maxSize, ops)) == PlainRun(ListOf(s), maxSize, ops)
    decreases |ops|
  {
    hide Inv, OrderOk, ExactBoth, Do, PlainDo, Tidy, Listing;
    InvOrdered(s);
    if ops != [] {
      StepPrecise(s, maxSize, ops[0]);
      InvOrdered(Do(s, maxSize, ops[0]));
      RunPrecise(Do(s, maxSize, ops[0]), maxSize, ops[1..]);
    }
  }

  /** An entry written over one with another type is removed with that type, which it does not carry. */
  lemma StaleFilingRemovesMore(maxSize: nat, key: string, a: CachedResponse, b: CachedResponse, name: string)
    requires maxSize >= 2 && name in a.types && name !in b.types
    ensures
      var ops := [PutOp(key, a), PutOp(key, b), InvalidateOp(Types, name)];
      Run(EMPTY, maxSize, ops).entries == map[] && PlainRun([], maxSize, ops) == [(key, b)]
  {
    hide Do, PlainDo, Run, PlainRun, Insert, Inv;
    var p, q, r := PutOp(key, a), PutOp(key, b), InvalidateOp(Types, name);
    ThreeSteps(maxSize, p, q, r);
    TwoPuts(maxSize, key, a, b, name);
    PlainPuts(maxSize, key, a, b, name);
  }

  lemma TwoPuts(maxSize: nat, key: string, a: CachedResponse, b: CachedResponse, name: string)
    requires maxSize >= 2 && name in a.types
    ensures var s := Do(Do(EMPTY, maxSize, PutOp(key, a)), maxSize, PutOp(key, b));
      Do(s, maxSize, InvalidateOp(Types, name)).entries == map[]
  {
    hide Link, Filed, Purge, Without;
    var s1 := Insert(EMPTY, key, a);
    var s2 := Insert(s1, key, b);
    EmptyInv();
    RemoveNone(EMPTY);
    InsertKeepsInv(EMPTY, key, a);
    RemoveNone(s1);
    assert Do(EMPTY, maxSize, PutOp(key, a)) == s1 && Do(s1, maxSize, PutOp(key, b)) == s2;
    InsertedUnder(EMPTY, key, a, Types, name);
    InsertedUnder(s1, key, b, Types, name);
    FiledOne(s2.typeIndex, {name}, name, key);
  }

  lemma FiledOne(idx: Index, names: set<string>, name: string, k: string)
    requires name in names && k in Under(idx, name)
    ensures k in Filed(idx, names)
  {
  }

  lemma PlainPuts(maxSize: nat, key: string, a: CachedResponse, b: CachedResponse, name: string)
    requires maxSize >= 2 && name !in b.types
    ensures PlainDo(PlainDo(PlainDo([], maxSize, PutOp(key, a)), maxSize, PutOp(key, b)), maxSize, InvalidateOp(Types, name))
         == [(key, b)]
  {
    assert [(key, a)][0..] == [(key, a)] && [(key, a)][1..] == [] && [(key, b)][1..] == [];
    assert PlainDo([], maxSize, PutOp(key, a)) == [(key, a)];
    assert PlainDo([(key, a)], maxSize, PutOp(key, b)) == [(key, b)];
    assert Carrying([(key, b)], Types, {name}) == {};
    assert Omit([(key, b)], {}) == [(key, b)] + Omit([], {}) == [(key, b)];
  }

  lemma RemoveNone(s: State)
    requires Inv(s)
    ensures Remove(s, {}) == s
  {
    DropNothing(s);
    WithoutPrefix(s.order, 0);
    assert Elements(s.order[..0]) == {};
  }

  lemma ThreeSteps(maxSize: nat, p: Op, q: Op, r: Op)
    ensures Run(EMPTY, maxSize, [p, q, r]) == Do(Do(Do(EMPTY, maxSize, p), maxSize, q), maxSize, r)
    ensures PlainRun([], maxSize, [p, q, r]) == PlainDo(PlainDo(PlainDo([], maxSize, p), maxSize, q), maxSize, r)
  {
    hide Do, PlainDo;
    var s1, l1 := Do(EMPTY, maxSize, p), PlainDo([], maxSize, p);
    var s2, l2 := Do(s1, maxSize, q), PlainDo(l1, maxSize, q);
    assert [p, q, r][1..] == [q, r] && [q, r][1..] == [r] && [r][1..] == [];
    assert Run(s2, maxSize, [r]) == Run(Do(s2, maxSize, r), maxSize, []);
    assert Run(s1, maxSize, [q, r]) == Run(s2, maxSize, [r]);
    assert PlainRun(l2, maxSize, [r]) == PlainRun(PlainDo(l2, maxSize, r), maxSize, []);
    assert PlainRun(l1, maxSize, [q, r]) == PlainRun(l2, maxSize, [r]);
  }
}
