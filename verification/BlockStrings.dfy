/**
 The whitelist's normaliser beside the string literals of GraphQL (sections 2.1.4 and 2.9.4 of the
 June 2018 specification), which are of two kinds: between single quotes on one line, with
 escapes, and between triple quotes.  The code knows the first kind only, and reads the quotes of
 the second as an empty string and the start of another; it agrees on every query without them.
 */
module BlockStrings {
  import opened Wrappers
  import opened QueryNormalizer

  // ----- literals as GraphQL has them ---------------------------------------------------

  predicate IsHex(c: char) {
    '0' <= c <= '9' || 'a' <= c <= 'f' || 'A' <= c <= 'F'
  }

  /** Length of the characters of an ordinary string and its closing quote. */
  function StringBody(s: string): (n: Option<nat>)
    ensures n.Some? ==> 1 <= n.value <= |s|
    decreases |s|
  {
    if s == [] || IsLineEnd(s[0]) then None
    else if s[0] == '"' then Some(1)
    else if s[0] != '\\' then
      var n :- StringBody(s[1..]);
      Some(1 + n)
    else if |s| >= 2 && s[1] in "\"\\/bfnrt" then
      var n :- StringBody(s[2..]);
      Some(2 + n)
    else if |s| >= 6 && s[1] == 'u' && forall i :: 2 <= i < 6 ==> IsHex(s[i]) then
      var n :- StringBody(s[6..]);
      Some(6 + n)
    else None
  }

  const TRIPLE := "\"\"\""
  const ESCAPED_TRIPLE := "\\\"\"\""

  /** Length of the characters of a block string and its closing quotes. */
  function BlockBody(s: string): (n: Option<nat>)
    ensures n.Some? ==> 3 <= n.value <= |s|
    decreases |s|
  {
    if TRIPLE <= s then Some(3)
    else if ESCAPED_TRIPLE <= s then
      var n :- BlockBody(s[4..]);
      Some(4 + n)
    else if s == [] then None
    else
      var n :- BlockBody(s[1..]);
      Some(1 + n)
  }

  /** Length of the literal at the start, if there is one. */
  function LiteralOf(s: string): (n: Option<nat>)
    requires s != [] && s[0] == '"'
    ensures n.Some? ==> 2 <= n.value <= |s|
  {
    if TRIPLE <= s then
      var n :- BlockBody(s[3..]);
      Some(3 + n)
    else
      var n :- StringBody(s[1..]);
      Some(1 + n)
  }

  /** The tokens of a query with its literals as GraphQL reads them; None if one of them is malformed. */
  function TokensWithBlocks(s: string): Option<seq<Token>>
    decreases |s|
  {
    if s == [] then Some([])
    else if s[0] == '"' then
      var n :- LiteralOf(s);
      var rest :- TokensWithBlocks(s[n..]);
      Some([Literal(s[..n])] + rest)
    else if s[0] == '#' then TokensWithBlocks(AfterComment(s[1..]))
    else if IsIgnored(s[0]) then TokensWithBlocks(s[1..])
    else if IsPunctuator(s[0]) then
      var rest :- TokensWithBlocks(s[1..]);
      Some([Punctuator(s[0])] + rest)
    else
      var rest :- TokensWithBlocks(s[1..]);
      Some(Glue(s[0], |s| > 1 && IsWordChar(s[1]), rest))
  }

  /** Reading on from the start, a literal begins with three quotes. */
  predicate MeetsBlock(s: string)
    decreases |s|
  {
    s != []
    && if s[0] == '"' then TRIPLE <= s || (LiteralOf(s).Some? && MeetsBlock(s[LiteralOf(s).value..]))
       else MeetsBlock(if s[0] == '#' then AfterComment(s[1..]) else s[1..])
  }

  // ----- where the code agrees ----------------------------------------------------------

  /** The scanner ends an ordinary string where GraphQL does. */
  lemma {:induction false} StringBodyAgrees(s: string)
    requires StringBody(s).Some?
    ensures BodyLength(s, false) == StringBody(s).value
    decreases |s|
  {
    if s[0] == '"' {
    } else if s[0] != '\\' {
      StringBodyAgrees(s[1..]);
    } else {
      EscapePassed(s);
      if s[1] in "\"\\/bfnrt" {
        StringBodyAgrees(s[2..]);
      } else {
        StringBodyAgrees(s[6..]);
        HexPassed(s[2..], 4);
        assert s[2..][4..] == s[6..];
      }
    }
  }

  lemma EscapePassed(s: string)
    requires |s| >= 2 && s[0] == '\\'
    ensures BodyLength(s, false) == 2 + BodyLength(s[2..], false)
  {
    assert s[1..][1..] == s[2..];
  }

  lemma {:induction false} HexPassed(s: string, n: nat)
    requires n <= |s| && forall i :: 0 <= i < n ==> IsHex(s[i])
    ensures BodyLength(s, false) == n + BodyLength(s[n..], false)
  {
    if n == 0 {
      assert s[0..] == s;
    } else {
      HexPassed(s[1..], n - 1);
      assert s[1..][n - 1..] == s[n..];
    }
  }

  lemma LiteralAgrees(s: string)
    requires s != [] && s[0] == '"' && !(TRIPLE <= s) && LiteralOf(s).Some?
    ensures LiteralLength(s) == LiteralOf(s).value
  {
    StringBodyAgrees(s[1..]);
  }

  /** Three quotes are an empty string and the start of another. */
  lemma TripleRead(s: string)
    requires TRIPLE <= s
    ensures LiteralLength(s) == 2
  {
    assert s[1] == TRIPLE[1];
  }

  lemma {:induction false} WordsFirst(s: string)
    requires s != [] && IsWordChar(s[0])
    ensures Tokens(s) != [] && Tokens(s)[0].Word?
    ensures TokensWithBlocks(s).Some? ==> TokensWithBlocks(s).value != [] && TokensWithBlocks(s).value[0].Word?
  {
  }

  lemma GlueInjective(c: char, touches: bool, a: seq<Token>, b: seq<Token>)
    requires touches ==> a != [] && b != [] && a[0].Word? && b[0].Word?
    ensures Glue(c, touches, a) == Glue(c, touches, b) <==> a == b
  {
    var x, y := Glue(c, touches, a), Glue(c, touches, b);
    if touches {
      assert a == [a[0]] + a[1..] && b == [b[0]] + b[1..];
      assert x[1..] == a[1..] && y[1..] == b[1..];
      assert x[0].text[1..] == a[0].text && y[0].text[1..] == b[0].text;
    } else {
      assert x[1..] == a && y[1..] == b;
    }
  }

  lemma PrependInjective(t: Token, a: seq<Token>, b: seq<Token>)
    ensures [t] + a == [t] + b <==> a == b
  {
    assert ([t] + a)[1..] == a && ([t] + b)[1..] == b;
  }

  /** Well-formed literals are read as GraphQL reads them exactly when none is a block string. */
  lemma {:induction false} BlockStringsIff(s: string)
    requires TokensWithBlocks(s).Some?
    ensures Tokens(s) == TokensWithBlocks(s).value <==> !MeetsBlock(s)
    decreases |s|
  {
    hide LiteralOf, LiteralLength, Glue, IsIgnored, IsPunctuator;
    if s == [] {
    } else if s[0] == '"' {
      if TRIPLE <= s {
        BlockDiffers(s);
      } else {
        var n := LiteralOf(s).value;
        LiteralAgrees(s);
        BlockStringsIff(s[n..]);
        PrependInjective(Literal(s[..n]), Tokens(s[n..]), TokensWithBlocks(s[n..]).value);
      }
    } else if s[0] == '#' {
      BlockStringsIff(AfterComment(s[1..]));
    } else if IsIgnored(s[0]) {
      BlockStringsIff(s[1..]);
    } else {
      BlockStringsIff(s[1..]);
      var a, b := Tokens(s[1..]), TokensWithBlocks(s[1..]).value;
      if IsPunctuator(s[0]) {
        PrependInjective(Punctuator(s[0]), a, b);
      } else {
        if |s| > 1 && IsWordChar(s[1]) {
          WordsFirst(s[1..]);
        }
        GlueInjective(s[0], |s| > 1 && IsWordChar(s[1]), a, b);
      }
    }
  }

  lemma BlockDiffers(s: string)
    requires TRIPLE <= s && TokensWithBlocks(s).Some?
    ensures Tokens(s) != TokensWithBlocks(s).value
  {
    hide LiteralLength, BlockBody;
    TripleRead(s);
    assert s[0] == TRIPLE[0];
    var n := LiteralOf(s).value;
    assert n >= 6;
    assert Tokens(s)[0] == Literal(s[..2]) && TokensWithBlocks(s).value[0] == Literal(s[..n]);
  }

  // ----- two queries with one normal form -----------------------------------------------

  const OPENING := "\"\"\"x\"#"

  /** What the code takes for two strings and a comment. */
  lemma ReadsComment(rest: string)
    requires AfterComment(rest) == []
    ensures Atoms(OPENING + rest, false) == [Atom(false, "\"\""), Atom(false, "\"x\"")]
  {
    hide Atoms;
    var s := OPENING + rest;
    assert TRIPLE <= s;
    TripleRead(s);
    var t := s[2..];
    assert t == "\"x\"#" + rest;
    assert t[1..] == "x\"#" + rest && t[1..][1..] == "\"#" + rest;
    assert t[1] == 'x' && t[2] == '"' && BodyLength(t[1..][1..], false) == 1;
    assert LiteralLength(t) == 3;
    var u := t[3..];
    assert u == "#" + rest && u[1..] == rest;
    AtomsLiteral(s, 2);
    AtomsLiteral(t, 3);
    assert s[..2] == "\"\"" && t[..3] == "\"x\"";
    AtomsComment(u);
  }

  lemma AtomsLiteral(s: string, n: nat)
    requires s != [] && s[0] == '"' && LiteralLength(s) == n
    ensures Atoms(s, false) == [Atom(false, s[..n])] + Atoms(s[n..], false)
  {
  }

  lemma AtomsComment(s: string)
    requires s != [] && s[0] == '#' && AfterComment(s[1..]) == []
    ensures Atoms(s, false) == []
  {
    assert Atoms([], true) == [];
  }

  /** Two block strings with a quote and a hash inside, told apart by what comes after, have one normal form. */
  lemma BlockStringsCollide()
    ensures
      var (q1, q2) := (OPENING + "y" + TRIPLE, OPENING + "z" + TRIPLE);
      && TokensWithBlocks(q1) == Some([Literal(q1)]) && TokensWithBlocks(q2) == Some([Literal(q2)]) && q1 != q2
      && Normalize(q1) == Normalize(q2)
  {
    hide TokensWithBlocks, Atoms;
    var (q1, q2) := (OPENING + "y" + TRIPLE, OPENING + "z" + TRIPLE);
    OneBlock('y');
    OneBlock('z');
    assert q1[6] == 'y' && q2[6] == 'z';
    NoLineEnd('y');
    NoLineEnd('z');
    ReadsComment("y" + TRIPLE);
    ReadsComment("z" + TRIPLE);
    assert q1 == OPENING + ("y" + TRIPLE) && q2 == OPENING + ("z" + TRIPLE);
  }

  lemma NoLineEnd(c: char)
    requires !IsLineEnd(c)
    ensures AfterComment([c] + TRIPLE) == []
  {
    var s := [c] + TRIPLE;
    assert s[1..] == TRIPLE && TRIPLE[1..] == "\"\"" && "\"\""[1..] == "\"" && "\""[1..] == "";
  }

  lemma OneBlock(c: char)
    requires c != '"' && c != '\\'
    ensures var q := OPENING + [c] + TRIPLE; TokensWithBlocks(q) == Some([Literal(q)])
  {
    hide BlockBody, TokensWithBlocks;
    var q := OPENING + [c] + TRIPLE;
    var b3 := [c] + TRIPLE;
    var b2 := ['#'] + b3;
    var b1 := ['"'] + b2;
    var b := ['x'] + b1;
    assert q == TRIPLE + b;
    Closing();
    assert TRIPLE[0] == '"' && b3[0] == c && b2[0] == '#' && b[0] == 'x';
    OneCharacter(c, TRIPLE);
    OneCharacter('#', b3);
    assert b1[1] == '#' && TRIPLE[1] == '"';
    OneCharacter('"', b2);
    OneCharacter('x', b1);
    assert q[0] == TRIPLE[0] && q[3..] == b;
    OneLiteral(q);
  }

  lemma Closing()
    ensures BlockBody(TRIPLE) == Some(3)
  {
  }

  lemma OneCharacter(c: char, s: string)
    requires c != '\\' && !(TRIPLE <= [c] + s)
    ensures BlockBody([c] + s) == match BlockBody(s) case Some(n) => Some(1 + n) case None => None
  {
    assert ([c] + s)[1..] == s && ESCAPED_TRIPLE[0] == '\\';
  }

  lemma OneLiteral(q: string)
    requires q != [] && q[0] == '"' && LiteralOf(q) == Some(|q|)
    ensures TokensWithBlocks(q) == Some([Literal(q)])
  {
    hide LiteralOf;
    assert q[..|q|] == q && q[|q|..] == [];
    assert TokensWithBlocks([]) == Some([]);
    assert [Literal(q)] + [] == [Literal(q)];
  }
}
