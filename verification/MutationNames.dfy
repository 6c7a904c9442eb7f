/**
 What a mutation's response invalidates, in the terms of the response itself: at any depth, the
 value of an object's `__typename`, and with its `id`, or `_id` where there is no such string,
 `Type#id`.
 */
module MutationNames {
  import opened Sets
  import opened Wrappers
  import opened InvertedIndex
  import opened JsonTree
  import opened ResponseCache
  import opened CacheRuns

  /** An object of type t. */
  predicate IsOfType(v: Json, t: string) {
    v.Obj? && "__typename" in v.fields && v.fields["__typename"] == Json.Str(t)
  }

  predicate HasString(v: Json, name: string, value: string) {
    v.Obj? && name in v.fields && v.fields[name] == Json.Str(value)
  }

  /** Its id is the string `id`, or else the string `_id`. */
  predicate IsCalled(v: Json, i: string) {
    HasString(v, "id", i)
    || (v.Obj? && !("id" in v.fields && v.fields["id"].Str?) && HasString(v, "_id", i))
  }

  ghost predicate TypeAt(response: Json, path: seq<Step>, t: string) {
    Lookup(response, path).Some? && IsOfType(Lookup(response, path).value, t)
  }

  ghost predicate EntityAt(response: Json, path: seq<Step>, t: string, i: string) {
    TypeAt(response, path, t) && IsCalled(Lookup(response, path).value, i)
  }

  lemma TypesHere(v: Json, n: string)
    ensures n in Here(Types, v) <==> IsOfType(v, n)
  {
  }

  lemma EntitiesHere(v: Json, n: string)
    ensures n in Here(Entities, v) <==> exists t, i :: IsOfType(v, t) && IsCalled(v, i) && n == t + "#" + i
  {
    if n in Here(Entities, v) {
      var t, i := TypeName(v).value, IdOf(v).value;
      assert IsOfType(v, t) && IsCalled(v, i) && n == t + "#" + i;
    }
  }

  /** The types looked up are those found at some place. */
  lemma TypesLookedUpIff(response: Json, t: string)
    ensures t in Mentioned(Types, response) <==> exists path :: TypeAt(response, path, t)
  {
    hide Here;
    if t in Mentioned(Types, response) {
      var path := MentionedSomewhere(Types, response, t);
      TypesHere(Lookup(response, path).value, t);
      assert TypeAt(response, path, t);
    }
    forall path | TypeAt(response, path, t)
      ensures t in Mentioned(Types, response)
    {
      TypesHere(Lookup(response, path).value, t);
      MentionedAtIsMentioned(Types, response, path, t);
    }
  }

  /** So are the entities. */
  lemma EntitiesLookedUpIff(response: Json, n: string)
    ensures n in Mentioned(Entities, response)
       <==> exists path, t, i :: EntityAt(response, path, t, i) && n == t + "#" + i
  {
    hide Here, IsOfType, IsCalled;
    if n in Mentioned(Entities, response) {
      var path := MentionedSomewhere(Entities, response, n);
      var v := Lookup(response, path).value;
      EntitiesHere(v, n);
      var t, i :| IsOfType(v, t) && IsCalled(v, i) && n == t + "#" + i;
      assert EntityAt(response, path, t, i);
    }
    forall path, t, i | EntityAt(response, path, t, i) && n == t + "#" + i
      ensures n in Mentioned(Entities, response)
    {
      EntitiesHere(Lookup(response, path).value, n);
      MentionedAtIsMentioned(Entities, response, path, n);
    }
  }

  /** After any run and a mutation no entry is left with a type, or an entity, that its response shows at any place. */
  lemma NothingLeft(maxSize: nat, ops: seq<Op>, response: Json, path: seq<Step>, fields: map<string, Json>, t: string,
    key: string)
    requires Lookup(response, path) == Some(Obj(fields))
    requires "__typename" in fields && fields["__typename"] == Json.Str(t)
    requires key in Run(EMPTY, maxSize, ops + [MutationOp(response)]).entries
    ensures
      var e := Run(EMPTY, maxSize, ops + [MutationOp(response)]).entries[key];
      && t !in e.types
      && ("id" in fields && fields["id"].Str? ==> t + "#" + fields["id"].s !in e.entities)
      && (!("id" in fields && fields["id"].Str?) && "_id" in fields && fields["_id"].Str? ==>
            t + "#" + fields["_id"].s !in e.entities)
  {
    hide Run, Here;
    var v := Obj(fields);
    TypesHere(v, t);
    MutationLeavesNoTrace(maxSize, ops, response, Types, path, t, key);
    if "id" in fields && fields["id"].Str? {
      EntityGone(maxSize, ops, response, path, t, fields["id"].s, key);
    } else if "_id" in fields && fields["_id"].Str? {
      EntityGone(maxSize, ops, response, path, t, fields["_id"].s, key);
    }
  }

  lemma EntityGone(maxSize: nat, ops: seq<Op>, response: Json, path: seq<Step>, t: string, i: string, key: string)
    requires EntityAt(response, path, t, i)
    requires key in Run(EMPTY, maxSize, ops + [MutationOp(response)]).entries
    ensures t + "#" + i !in Run(EMPTY, maxSize, ops + [MutationOp(response)]).entries[key].entities
  {
    hide Run, Here, IsOfType, IsCalled;
    var n := t + "#" + i;
    EntitiesHere(Lookup(response, path).value, n);
    MutationLeavesNoTrace(maxSize, ops, response, Entities, path, n, key);
  }

  /** Why an entry goes: it is filed under a type or an entity that the response shows. */
  ghost predicate ShownFor(s: State, response: Json, key: string) {
    || (exists path, t :: TypeAt(response, path, t) && key in Under(s.typeIndex, t))
    || (exists path, t, i :: EntityAt(response, path, t, i) && key in Under(s.entityIndex, t + "#" + i))
  }

  /** Just those entries go. */
  lemma GoesIff(s: State, response: Json, key: string)
    requires key in s.entries
    ensures key !in InvalidateForMutation(s, response).entries <==> ShownFor(s, response, key)
  {
    hide Mentioned, Purge, Without, Under, TypeAt, EntityAt;
    GoneIff(s, response, key);
    if key !in InvalidateForMutation(s, response).entries {
      if n :| n in Mentioned(Types, response) && key in Under(s.typeIndex, n) {
        TypesLookedUpIff(response, n);
      } else {
        var n :| n in Mentioned(Entities, response) && key in Under(s.entityIndex, n);
        EntitiesLookedUpIff(response, n);
      }
    }
    if ShownFor(s, response, key) {
      if path, t :| TypeAt(response, path, t) && key in Under(s.typeIndex, t) {
        TypesLookedUpIff(response, t);
      } else {
        var path, t, i :| EntityAt(response, path, t, i) && key in Under(s.entityIndex, t + "#" + i);
        EntitiesLookedUpIff(response, t + "#" + i);
      }
    }
  }

  lemma GoneIff(s: State, response: Json, key: string)
    requires key in s.entries
    ensures key !in InvalidateForMutation(s, response).entries
       <==> (exists n :: n in Mentioned(Types, response) && key in Under(s.typeIndex, n))
            || (exists n :: n in Mentioned(Entities, response) && key in Under(s.entityIndex, n))
  {
    hide Mentioned, Purge, Without, Under;
  }
}
