/**
 The key a response is cached under: a digest of the query's words, the variables, the operation
 and further parts, one after the other.  Each part on its own is told apart; since nothing
 separates them, what one part ends with and the next begins with is not.  The words of a query
 are its maximal runs of characters that are no whitespace, and are joined by single blanks.
 */
module CacheKeys {
  import opened Wrappers
  import opened QueryNormalizer

  /** Variables as the JSON library prints them sorted by key; absent and null ones are None. */
  datatype Request = Request(query: string, variables: Option<string>, operation: Option<string>, extra: seq<string>)

  // ----- the words of a query -----------------------------------------------------------

  predicate IsWord(w: string) {
    w != "" && forall i :: 0 <= i < |w| ==> !IsWhitespace(w[i])
  }

  /** Maximal runs of characters that are no whitespace. */
  function Words(s: string): (words: seq<string>)
    ensures s != "" && !IsWhitespace(s[0]) ==> words != []
  {
    if s == "" then []
    else if IsWhitespace(s[0]) then Words(s[1..])
    else if |s| > 1 && !IsWhitespace(s[1]) then
      var rest := Words(s[1..]);
      [[s[0]] + rest[0]] + rest[1..]
    else [[s[0]]] + Words(s[1..])
  }

  function Join(words: seq<string>): string {
    if words == [] then "" else if |words| == 1 then words[0] else words[0] + " " + Join(words[1..])
  }

  lemma {:induction false} WordsAreWords(s: string)
    ensures forall w <- Words(s) :: IsWord(w)
  {
    hide IsWhitespace;
    if s != "" {
      WordsAreWords(s[1..]);
      var rest := Words(s[1..]);
      if !IsWhitespace(s[0]) {
        assert IsWord([s[0]]);
        if |s| > 1 && !IsWhitespace(s[1]) {
          assert rest[0] in rest;
          LongerWord(s[0], rest[0]);
          assert forall w <- rest[1..] :: w in rest;
        }
      }
    }
  }

  lemma LongerWord(c: char, w: string)
    requires !IsWhitespace(c) && IsWord(w)
    ensures IsWord([c] + w)
  {
    hide IsWhitespace;
  }

  /** A word is read up to a blank or the end. */
  lemma {:induction false} WordRead(w: string, rest: string)
    requires IsWord(w) && (rest == "" || IsWhitespace(rest[0]))
    ensures Words(w + rest) == [w] + Words(rest)
    decreases |w|
  {
    hide IsWhitespace;
    var s := w + rest;
    assert s[1..] == w[1..] + rest;
    if |w| == 1 {
      assert s[1..] == rest && w == [s[0]];
    } else {
      WordRead(w[1..], rest);
      assert w == [w[0]] + w[1..];
    }
  }

  lemma {:induction false} WordsOfJoin(words: seq<string>)
    requires forall w <- words :: IsWord(w)
    ensures Words(Join(words)) == words
    decreases |words|
  {
    hide IsWord;
    if |words| == 1 {
      WordRead(words[0], "");
      assert words[0] + "" == words[0] && Words("") == [];
    } else if words != [] {
      var rest := " " + Join(words[1..]);
      WordsOfJoin(words[1..]);
      assert rest[1..] == Join(words[1..]) && Words(rest) == Words(rest[1..]);
      WordRead(words[0], rest);
      assert words[0] + " " + Join(words[1..]) == words[0] + rest;
    }
  }

  // ----- the key ------------------------------------------------------------------------

  function OrEmpty(s: Option<string>): string {
    if s.Some? then s.value else ""
  }

  function Concat(parts: seq<string>): string {
    if parts == [] then "" else parts[0] + Concat(parts[1..])
  }

  /** All that is digested. */
  function KeyText(r: Request): string {
    Join(Words(r.query)) + OrEmpty(r.variables) + OrEmpty(r.operation) + Concat(r.extra)
  }

  function GenerateCacheKey(digest: string -> string, r: Request): string {
    digest(KeyText(r))
  }

  ghost predicate Injective(digest: string -> string) {
    forall a, b :: digest(a) == digest(b) ==> a == b
  }

  lemma Cancel(x: string, a: string, b: string, y: string)
    ensures x + a + y == x + b + y <==> a == b
  {
    var s, t := x + a + y, x + b + y;
    if s == t {
      assert |a| == |b|;
      assert a == s[|x|..|x| + |a|] && b == t[|x|..|x| + |b|];
    }
  }

  lemma SameWords(a: string, b: string)
    ensures Join(Words(a)) == Join(Words(b)) <==> Words(a) == Words(b)
  {
    hide Words, Join;
    WordsAreWords(a);
    WordsAreWords(b);
    WordsOfJoin(Words(a));
    WordsOfJoin(Words(b));
  }

  /** The rest being equal, queries share a key exactly when they have the same words. */
  lemma QueriesApart(digest: string -> string, a: Request, b: Request)
    requires Injective(digest) && a == b.(query := a.query)
    ensures GenerateCacheKey(digest, a) == GenerateCacheKey(digest, b) <==> Words(a.query) == Words(b.query)
  {
    hide Words, Join, OrEmpty, Concat;
    var v, o, e := OrEmpty(a.variables), OrEmpty(a.operation), Concat(a.extra);
    var p, q := Join(Words(a.query)), Join(Words(b.query));
    assert KeyText(a) == "" + p + (v + o + e) && KeyText(b) == "" + q + (v + o + e);
    Cancel("", p, q, v + o + e);
    SameWords(a.query, b.query);
  }

  /** So do requests that differ in their variables, or operation, or further parts alone, when these print alike. */
  lemma PartsApart(digest: string -> string, a: Request, b: Request)
    requires Injective(digest) && Words(a.query) == Words(b.query)
    ensures a.operation == b.operation && a.extra == b.extra ==>
      (GenerateCacheKey(digest, a) == GenerateCacheKey(digest, b) <==> OrEmpty(a.variables) == OrEmpty(b.variables))
    ensures a.variables == b.variables && a.extra == b.extra ==>
      (GenerateCacheKey(digest, a) == GenerateCacheKey(digest, b) <==> OrEmpty(a.operation) == OrEmpty(b.operation))
    ensures a.variables == b.variables && a.operation == b.operation ==>
      (GenerateCacheKey(digest, a) == GenerateCacheKey(digest, b) <==> Concat(a.extra) == Concat(b.extra))
  {
    hide Words, Concat, Join;
    var q, v, o, e := Join(Words(a.query)), OrEmpty(a.variables), OrEmpty(a.operation), Concat(a.extra);
    if a.operation == b.operation && a.extra == b.extra {
      Cancel(q, v, OrEmpty(b.variables), o + e);
      assert KeyText(a) == q + v + (o + e) && KeyText(b) == q + OrEmpty(b.variables) + (o + e);
    }
    if a.variables == b.variables && a.extra == b.extra {
      Cancel(q + v, o, OrEmpty(b.operation), e);
    }
    if a.variables == b.variables && a.operation == b.operation {
      Cancel(q + v + o, e, Concat(b.extra), "");
      assert KeyText(a) == q + v + o + e + "" && KeyText(b) == q + v + o + Concat(b.extra) + "";
    }
  }

  lemma OneWord(w: string)
    requires IsWord(w)
    ensures Words(w) == [w] && Join(Words(w)) == w
  {
    WordsOfJoin([w]);
  }

  lemma WordsTouch(u: string, v: string)
    requires IsWord(u) && IsWord(v)
    ensures IsWord(u + v)
  {
    hide IsWhitespace;
  }

  /** The parts follow each other in this order, with nothing between them. */
  lemma PartsInOrder(digest: string -> string, q: string, v: string, o: string, e: string, f: string)
    requires IsWord(q)
    ensures GenerateCacheKey(digest, Request(q, Some(v), Some(o), [e, f])) == digest(q + v + o + (e + f))
  {
    hide Words, Join, IsWord;
    OneWord(q);
    assert [e, f][1..] == [f] && [f][1..] == [];
    assert Concat([]) == "" && Concat([f]) == f + "" == f;
  }

  /** A word and an operation share their key with the two written as one word. */
  lemma PartsRunTogether(digest: string -> string, u: string, v: string)
    requires IsWord(u) && IsWord(v)
    ensures GenerateCacheKey(digest, Request(u, None, Some(v), [])) == GenerateCacheKey(digest, Request(u + v, None, None, []))
    ensures Words(u) != Words(u + v)
  {
    hide Words, Join, IsWord;
    WordsTouch(u, v);
    OneWord(u);
    OneWord(u + v);
    NotEmpty(v);
    assert [u][0] != [u + v][0] by { assert |u| < |u + v|; }
    assert Concat([]) == "";
    assert KeyText(Request(u, None, Some(v), [])) == u + "" + v + "" == u + v;
    assert KeyText(Request(u + v, None, None, [])) == u + v + "" + "" + "" == u + v;
  }

  lemma NotEmpty(w: string)
    requires IsWord(w)
    ensures w != ""
  {
  }
}
