/** Inverted indices: for each name, the keys filed under it. */
module InvertedIndex {
  type Index = map<string, set<string>>

  /** `key` is filed under every one of `names`. */
  function Link(idx: Index, names: set<string>, key: string): Index {
    map n | n in idx.Keys + names :: (if n in idx then idx[n] else {}) + (if n in names then {key} else {})
  }

  /** `key` is taken from under every one of `names`; emptied sets go. */
  function Unlink(idx: Index, names: set<string>, key: string): Index {
    map n | n in idx && !(n in names && idx[n] - {key} == {}) :: if n in names then idx[n] - {key} else idx[n]
  }

  function Under(idx: Index, name: string): set<string> {
    if name in idx then idx[name] else {}
  }

  ghost predicate NonEmpty(idx: Index) {
    forall n :: n in idx ==> idx[n] != {}
  }

  lemma LinkKeepsNonEmpty(idx: Index, names: set<string>, key: string)
    requires NonEmpty(idx)
    ensures NonEmpty(Link(idx, names, key))
  {
    forall n | n in Link(idx, names, key)
      ensures Link(idx, names, key)[n] != {}
    {
      if n in names {
        assert key in Link(idx, names, key)[n];
      } else {
        assert Link(idx, names, key)[n] == idx[n] + {} == idx[n];
      }
    }
  }

  /** What linking and unlinking do to each name. */
  lemma UnderLinked(idx: Index, names: set<string>, key: string, n: string)
    requires NonEmpty(idx)
    ensures NonEmpty(Link(idx, names, key)) && NonEmpty(Unlink(idx, names, key))
    ensures Under(Link(idx, names, key), n) == if n in names then Under(idx, n) + {key} else Under(idx, n)
    ensures Under(Unlink(idx, names, key), n) == if n in names then Under(idx, n) - {key} else Under(idx, n)
  {
    LinkKeepsNonEmpty(idx, names, key);
    assert n in idx ==> idx[n] + {} == idx[n];
  }

  /** Two indices without empty sets are equal when they file the same keys under every name. */
  lemma SameIndex(a: Index, b: Index)
    requires NonEmpty(a) && NonEmpty(b) && forall n :: Under(a, n) == Under(b, n)
    ensures a == b
  {
    forall n
      ensures n in a <==> n in b
      ensures n in a ==> a[n] == b[n]
    {
      assert Under(a, n) == Under(b, n);
    }
  }

  /** The loop that files a key under names one by one. */
  method AddToIndex(idx: Index, names: set<string>, key: string) returns (idx': Index)
    ensures idx' == Link(idx, names, key)
  {
    hide Link, Under;
    idx' := idx;
    var left := names;
    LinkNone(idx, key);
    assert names - left == {};
    while left != {}
      invariant left <= names && idx' == Link(idx, names - left, key)
      decreases |left|
    {
      var n :| n in left;
      LinkOneMore(idx, names - left, n, key);
      assert names - (left - {n}) == names - left + {n};
      idx' := idx'[n := Under(idx', n) + {key}];
      left := left - {n};
    }
    assert names - left == names;
  }

  lemma LinkNone(idx: Index, key: string)
    ensures Link(idx, {}, key) == idx && Unlink(idx, {}, key) == idx
  {
    forall n | n in idx
      ensures idx[n] + {} == idx[n]
    {
    }
    assert idx.Keys + {} == idx.Keys;
  }

  lemma UnlinkOneMore(idx: Index, names: set<string>, n: string, key: string)
    ensures var u := Unlink(idx, names, key);
      Unlink(idx, names + {n}, key)
      == if n !in u then u else if u[n] - {key} == {} then u - {n} else u[n := u[n] - {key}]
  {
    var u, u' := Unlink(idx, names, key), Unlink(idx, names + {n}, key);
    forall x | x in idx && x != n
      ensures x in u <==> x in u'
      ensures x in u ==> u[x] == u'[x]
    {
    }
    if n in names {
      assert names + {n} == names;
      assert n in u ==> u[n] - {key} == u[n] && u[n := u[n]] == u;
      return;
    }
    assert n in u <==> n in idx;
    assert n in u' <==> n in idx && idx[n] - {key} != {};
  }

  lemma LinkOneMore(idx: Index, names: set<string>, n: string, key: string)
    ensures var l := Link(idx, names, key); l[n := Under(l, n) + {key}] == Link(idx, names + {n}, key)
  {
    var l, l' := Link(idx, names, key), Link(idx, names + {n}, key);
    assert l[n := Under(l, n) + {key}].Keys == l'.Keys;
    assert n in idx && n !in names ==> l[n] == idx[n] + {} == idx[n];
    assert Under(l, n) + {key} == l'[n];
  }

  /** The loop that takes a key from under names one by one. */
  method RemoveFromIndex(idx: Index, names: set<string>, key: string) returns (idx': Index)
    ensures idx' == Unlink(idx, names, key)
  {
    hide Unlink;
    idx' := idx;
    var left := names;
    LinkNone(idx, key);
    assert names - left == {};
    while left != {}
      invariant left <= names && idx' == Unlink(idx, names - left, key)
      decreases |left|
    {
      var n :| n in left;
      UnlinkOneMore(idx, names - left, n, key);
      assert names - (left - {n}) == names - left + {n};
      if n in idx' {
        var keys := idx'[n] - {key};
        idx' := if keys == {} then idx' - {n} else idx'[n := keys];
      }
      left := left - {n};
    }
    assert names - left == names;
  }
}
