/**
 The whitelist's query normaliser: comments dropped, ignored text collapsed, blanks
 around punctuators removed.  A query is first read as atoms (string literals and
 single other characters), each marked by whether ignored text precedes it; the
 normal form writes the atoms with a blank wherever a marked atom and its predecessor
 are both no punctuators.
 */
module QueryNormalizer {

  // ----- characters -----

  predicate IsPunctuator(c: char) {
    c in "!$():=@[]{|}"
  }

  /** Unicode White_Space. */
  predicate IsWhitespace(c: char) {
    '\t' <= c <= '\r' || c == ' ' || c == '\U{85}' || c == '\U{A0}' || c == '\U{1680}' || '\U{2000}' <= c <= '\U{200A}'
    || c == '\U{2028}' || c == '\U{2029}' || c == '\U{202F}' || c == '\U{205F}' || c == '\U{3000}'
  }

  predicate IsIgnored(c: char) {
    IsWhitespace(c) || c == ','
  }

  predicate IsLineEnd(c: char) {
    c == '\n' || c == '\r'
  }

  /** Part of a name, number or the like: whatever is nothing else. */
  predicate IsWordChar(c: char) {
    c != '"' && c != '#' && !IsIgnored(c) && !IsPunctuator(c)
  }

  // ----- reference: the tokens of a query -----

  datatype Token = Punctuator(c: char) | Literal(text: string) | Word(text: string)

  /** Length of a string body up to and including its closing quote, or all of it. */
  function BodyLength(s: string, escaped: bool): (n: nat)
    ensures n <= |s|
  {
    if s == [] then 0
    else if s[0] == '"' && !escaped then 1
    else 1 + BodyLength(s[1..], s[0] == '\\' && !escaped)
  }

  /** Length of a literal, its opening quote included. */
  function LiteralLength(s: string): (n: nat)
    requires s != [] && s[0] == '"'
    ensures 1 <= n <= |s|
  {
    1 + BodyLength(s[1..], false)
  }

  /** What follows the first line end, or nothing. */
  function AfterComment(s: string): (rest: string)
    ensures |rest| <= |s|
  {
    if s == [] then [] else if IsLineEnd(s[0]) then s[1..] else AfterComment(s[1..])
  }

  /** Punctuators, string literals verbatim, and maximal runs of word characters. */
  function Tokens(s: string): seq<Token>
    decreases |s|
  {
    if s == [] then []
    else if s[0] == '"' then
      var n := LiteralLength(s);
      [Literal(s[..n])] + Tokens(s[n..])
    else if s[0] == '#' then Tokens(AfterComment(s[1..]))
    else if IsIgnored(s[0]) then Tokens(s[1..])
    else if IsPunctuator(s[0]) then [Punctuator(s[0])] + Tokens(s[1..])
    else Glue(s[0], |s| > 1 && IsWordChar(s[1]), Tokens(s[1..]))
  }

  /** A word character starts a word, or is put in front of the word it touches. */
  function Glue(c: char, touches: bool, rest: seq<Token>): seq<Token> {
    if touches && rest != [] && rest[0].Word? then [Word([c] + rest[0].text)] + rest[1..] else [Word([c])] + rest
  }

  // ----- atoms -----

  datatype Atom = Atom(gap: bool, text: string)

  function Atoms(s: string, gap: bool): seq<Atom>
    decreases |s|
  {
    if s == [] then []
    else if s[0] == '"' then
      var n := LiteralLength(s);
      [Atom(gap, s[..n])] + Atoms(s[n..], false)
    else if s[0] == '#' then Atoms(AfterComment(s[1..]), true)
    else if IsIgnored(s[0]) then Atoms(s[1..], true)
    else [Atom(gap, [s[0]])] + Atoms(s[1..], false)
  }

  /** What was written last: nothing, a punctuator, or anything else. */
  datatype Last = Nothing | Punct | Other

  function LastOf(text: string): Last {
    if text == [] then Nothing else if IsPunctuator(text[0]) then Punct else Other
  }

  /** A blank goes between two atoms only where text was ignored and neither is a punctuator. */
  predicate NeedsBlank(last: Last, a: Atom) {
    a.gap && last == Other && LastOf(a.text) == Other
  }

  function Render(last: Last, atoms: seq<Atom>): string
    decreases |atoms|
  {
    if atoms == [] then []
    else (if NeedsBlank(last, atoms[0]) then " " else "") + atoms[0].text + Render(LastOf(atoms[0].text), atoms[1..])
  }

  function Normalize(q: string): string {
    Render(Nothing, Atoms(q, false))
  }

  // ----- the normal form read again -----

  /** A literal that ends with its own closing quote. */
  predicate IsClosed(text: string) {
    |text| > 1 && text[0] == '"' && Closes(text[1..], false)
  }

  predicate Closes(body: string, escaped: bool) {
    body != []
    && if body[0] == '"' && !escaped then |body| == 1 else Closes(body[1..], body[0] == '\\' && !escaped)
  }

  /** Single characters, closed literals, and an unclosed literal only at the end. */
  ghost predicate ValidAtoms(atoms: seq<Atom>) {
    atoms == []
    || (ValidAtoms(atoms[1..])
        && var t := atoms[0].text;
           t != [] && if t[0] == '"' then IsClosed(t) || (|atoms| == 1 && LiteralLength(t) == |t|)
                      else |t| == 1 && t[0] != '#' && !IsIgnored(t[0]))
  }

  /** A body that does not close runs to the end of the text. */
  lemma {:induction false} BodyCloses(s: string, escaped: bool)
    ensures var n := BodyLength(s, escaped); Closes(s[..n], escaped) || n == |s|
  {
    if s != [] && (s[0] != '"' || escaped) {
      var escaped' := s[0] == '\\' && !escaped;
      BodyCloses(s[1..], escaped');
      var n := BodyLength(s[1..], escaped');
      assert s[..n + 1][1..] == s[1..][..n];
    }
  }

  lemma {:induction false} BodyLengthOfPrefix(s: string, escaped: bool)
    ensures var n := BodyLength(s, escaped); BodyLength(s[..n], escaped) == n
  {
    if s != [] && (s[0] != '"' || escaped) {
      var escaped' := s[0] == '\\' && !escaped;
      var n := BodyLength(s[1..], escaped');
      BodyLengthOfPrefix(s[1..], escaped');
      assert s[..n + 1][1..] == s[1..][..n];
    }
  }

  lemma {:induction false} ClosedBodyStops(body: string, escaped: bool, rest: string)
    requires Closes(body, escaped)
    ensures BodyLength(body + rest, escaped) == |body|
  {
    assert (body + rest)[0] == body[0];
    if body[0] != '"' || escaped {
      assert (body + rest)[1..] == body[1..] + rest;
      ClosedBodyStops(body[1..], body[0] == '\\' && !escaped, rest);
    }
  }

  lemma {:induction false} AtomsAreValid(s: string, gap: bool)
    ensures ValidAtoms(Atoms(s, gap))
    decreases |s|
  {
    if s == [] {
    } else if s[0] == '"' {
      var n := LiteralLength(s);
      var t := s[..n];
      AtomsAreValid(s[n..], false);
      BodyCloses(s[1..], false);
      BodyLengthOfPrefix(s[1..], false);
      assert t[1..] == s[1..][..n - 1];
      if n == |s| {
        assert s[n..] == [];
      } else {
        assert IsClosed(t) by {
          assert Closes(s[1..][..n - 1], false);
        }
      }
      assert Atoms(s, gap)[1..] == Atoms(s[n..], false);
    } else if s[0] == '#' {
      AtomsAreValid(AfterComment(s[1..]), true);
    } else if IsIgnored(s[0]) {
      AtomsAreValid(s[1..], true);
    } else {
      AtomsAreValid(s[1..], false);
      assert Atoms(s, gap)[1..] == Atoms(s[1..], false);
    }
  }

  /** The marks that the normal form keeps. */
  function Kept(last: Last, atoms: seq<Atom>): seq<Atom>
    decreases |atoms|
  {
    if atoms == [] then []
    else [Atom(NeedsBlank(last, atoms[0]), atoms[0].text)] + Kept(LastOf(atoms[0].text), atoms[1..])
  }

  lemma RenderStep(last: Last, atoms: seq<Atom>)
    requires atoms != []
    ensures
      var a, tail := atoms[0], Render(LastOf(atoms[0].text), atoms[1..]);
      && Render(last, atoms) == (if NeedsBlank(last, a) then " " + (a.text + tail) else a.text + tail)
      && Kept(last, atoms) == [Atom(NeedsBlank(last, a), a.text)] + Kept(LastOf(a.text), atoms[1..])
      && (|atoms| == 1 ==> tail == [])
  {
    hide NeedsBlank, LastOf;
  }

  lemma ValidRest(atoms: seq<Atom>)
    requires ValidAtoms(atoms) && atoms != []
    ensures ValidAtoms(atoms[1..])
  {
    hide IsClosed, IsIgnored, LiteralLength;
  }

  lemma {:induction false} RenderReadsBack(last: Last, atoms: seq<Atom>)
    requires ValidAtoms(atoms)
    ensures Atoms(Render(last, atoms), false) == Kept(last, atoms)
    decreases |atoms|
  {
    hide Atoms, ValidAtoms, LastOf, NeedsBlank;
    if atoms == [] {
      NoAtoms();
    } else {
      hide Render, Kept;
      var a, tail := atoms[0], Render(LastOf(atoms[0].text), atoms[1..]);
      var blank := NeedsBlank(last, a);
      ValidRest(atoms);
      RenderStep(last, atoms);
      RenderReadsBack(LastOf(a.text), atoms[1..]);
      AtomsOfText(a.text, tail, atoms, blank);
      if blank {
        AtomsAfterBlank(a.text + tail);
      }
    }
  }

  lemma NoAtoms()
    ensures Atoms([], false) == []
  {
  }

  lemma AtomsAfterBlank(s: string)
    ensures Atoms(" " + s, false) == Atoms(s, true)
  {
    assert (" " + s)[1..] == s;
  }

  lemma AtomsOfText(t: string, tail: string, atoms: seq<Atom>, gap: bool)
    requires ValidAtoms(atoms) && atoms != [] && t == atoms[0].text && (|atoms| == 1 ==> tail == [])
    ensures Atoms(t + tail, gap) == [Atom(gap, t)] + Atoms(tail, false)
  {
    var s := t + tail;
    assert s[0] == t[0];
    if t[0] == '"' {
      assert s[1..] == t[1..] + tail;
      if IsClosed(t) {
        ClosedBodyStops(t[1..], false, tail);
      } else {
        assert s == t;
      }
      assert LiteralLength(s) == |t| && s[..|t|] == t && s[|t|..] == tail;
    } else {
      assert s[..1] == t && s[1..] == tail;
      assert t == [s[0]];
    }
  }

  lemma {:induction false} RenderKept(last: Last, atoms: seq<Atom>)
    ensures Render(last, Kept(last, atoms)) == Render(last, atoms)
    decreases |atoms|
  {
    if atoms != [] {
      var k := Kept(last, atoms);
      assert k[1..] == Kept(LastOf(atoms[0].text), atoms[1..]);
      RenderKept(LastOf(atoms[0].text), atoms[1..]);
    }
  }

  /** Reading the normal form gives the query's atoms, with only the blanks that matter. */
  lemma AtomsOfNormalForm(q: string)
    ensures Atoms(Normalize(q), false) == Kept(Nothing, Atoms(q, false))
  {
    AtomsAreValid(q, false);
    RenderReadsBack(Nothing, Atoms(q, false));
  }

  /** Normalising twice is normalising once, on every input. */
  lemma NormalizeIdempotent(q: string)
    ensures Normalize(Normalize(q)) == Normalize(q)
  {
    AtomsOfNormalForm(q);
    RenderKept(Nothing, Atoms(q, false));
  }

  /** Two queries normalise alike exactly when they have the same atoms and the same blanks that matter. */
  lemma NormalFormIsComplete(q1: string, q2: string)
    ensures Normalize(q1) == Normalize(q2) <==> Kept(Nothing, Atoms(q1, false)) == Kept(Nothing, Atoms(q2, false))
  {
    AtomsOfNormalForm(q1);
    AtomsOfNormalForm(q2);
    RenderKept(Nothing, Atoms(q1, false));
    RenderKept(Nothing, Atoms(q2, false));
  }

  // ----- tokens from atoms -----

  predicate IsWordAtom(a: Atom) {
    |a.text| == 1 && IsWordChar(a.text[0])
  }

  /** Word atoms with nothing ignored between them form one word. */
  function Grouped(atoms: seq<Atom>): seq<Token> {
    if atoms == [] then []
    else
      var t, rest := atoms[0].text, Grouped(atoms[1..]);
      if IsWordAtom(atoms[0]) then Glue(t[0], |atoms| > 1 && IsWordAtom(atoms[1]) && !atoms[1].gap, rest)
      else if |t| == 1 && IsPunctuator(t[0]) then [Punctuator(t[0])] + rest
      else [Literal(t)] + rest
  }

  lemma {:induction false} TokensAreGrouped(s: string, gap: bool)
    ensures Tokens(s) == Grouped(Atoms(s, gap))
    decreases |s|
  {
    hide LiteralLength, IsIgnored, IsPunctuator;
    if s == [] {
    } else if s[0] == '"' {
      var n := LiteralLength(s);
      QuoteIsNoPunctuator();
      TokensAreGrouped(s[n..], false);
      assert Atoms(s, gap)[1..] == Atoms(s[n..], false);
    } else if s[0] == '#' {
      TokensAreGrouped(AfterComment(s[1..]), true);
    } else if IsIgnored(s[0]) {
      TokensAreGrouped(s[1..], true);
    } else {
      var rest := Atoms(s[1..], false);
      TokensAreGrouped(s[1..], false);
      assert Atoms(s, gap)[1..] == rest;
      FirstAtom(s[1..]);
      assert (|s| > 1 && IsWordChar(s[1])) == (rest != [] && IsWordAtom(rest[0]) && !rest[0].gap);
    }
  }

  /** The text starts with a word character exactly when its first atom is one, unmarked. */
  lemma FirstAtom(s: string)
    ensures (s != [] && IsWordChar(s[0])) == (Atoms(s, false) != [] && IsWordAtom(Atoms(s, false)[0]) && !Atoms(s, false)[0].gap)
  {
    if s != [] && s[0] == '#' {
      FirstMarked(AfterComment(s[1..]));
    } else if s != [] && IsIgnored(s[0]) {
      FirstMarked(s[1..]);
    }
  }

  lemma {:induction false} FirstMarked(s: string)
    ensures Atoms(s, true) != [] ==> Atoms(s, true)[0].gap
    decreases |s|
  {
    if s != [] && s[0] == '#' {
      FirstMarked(AfterComment(s[1..]));
    } else if s != [] && IsIgnored(s[0]) {
      FirstMarked(s[1..]);
    }
  }

  lemma {:induction false} GroupedKept(last: Last, atoms: seq<Atom>)
    requires ValidAtoms(atoms)
    ensures Grouped(Kept(last, atoms)) == Grouped(atoms)
    decreases |atoms|
  {
    if atoms != [] {
      var last' := LastOf(atoms[0].text);
      assert Kept(last, atoms)[1..] == Kept(last', atoms[1..]);
      GroupedKept(last', atoms[1..]);
    }
  }

  /** Normalising keeps every token: meaning is preserved. */
  lemma TokensPreserved(q: string)
    ensures Tokens(Normalize(q)) == Tokens(q)
  {
    AtomsOfNormalForm(q);
    AtomsAreValid(q, false);
    GroupedKept(Nothing, Atoms(q, false));
    TokensAreGrouped(q, false);
    TokensAreGrouped(Normalize(q), false);
  }

  /** So a query is only ever taken for one with the same tokens. */
  lemma EqualNormalFormsEqualTokens(q1: string, q2: string)
    requires Normalize(q1) == Normalize(q2)
    ensures Tokens(q1) == Tokens(q2)
  {
    TokensPreserved(q1);
    TokensPreserved(q2);
  }

  // ----- when equal tokens give equal normal forms -----

  predicate IsQuote(text: string) {
    text != [] && text[0] == '"'
  }

  /** For each atom, whether a blank is kept before it that stands next to a string literal. */
  function QuoteBlanks(before: string, atoms: seq<Atom>): (blanks: seq<bool>)
    ensures |blanks| == |atoms|
    decreases |atoms|
  {
    if atoms == [] then []
    else
      var a := atoms[0];
      [(IsQuote(before) || IsQuote(a.text)) && NeedsBlank(LastOf(before), a)] + QuoteBlanks(a.text, atoms[1..])
  }

  /** The same characters and literals, and the same blanks between the characters of words. */
  ghost predicate SameWords(x: seq<Atom>, y: seq<Atom>) {
    && |x| == |y|
    && (forall i :: 0 <= i < |x| ==> x[i].text == y[i].text)
    && forall i :: 0 < i < |x| && IsWordAtom(x[i - 1]) && IsWordAtom(x[i]) ==> x[i].gap == y[i].gap
  }

  /** An atom is a word character, a punctuator or a literal. */
  predicate IsAtomText(t: string) {
    IsQuote(t) || (|t| == 1 && (IsPunctuator(t[0]) || IsWordChar(t[0])))
  }

  lemma AtomShape(x: seq<Atom>)
    requires ValidAtoms(x) && x != []
    ensures IsAtomText(x[0].text) && ValidAtoms(x[1..])
  {
    hide IsPunctuator;
    QuoteIsNoPunctuator();
  }

  lemma {:induction false} WordFirst(x: seq<Atom>)
    requires x != [] && IsAtomText(x[0].text)
    ensures Grouped(x) != [] && (Grouped(x)[0].Word? <==> IsWordAtom(x[0]))
    ensures Grouped(x)[0].Word? ==> Grouped(x)[0].text != []
  {
    hide IsPunctuator, IsIgnored;
    QuoteIsNoPunctuator();
  }

  /** The first token says what the first atom is, and whether the next one belongs to the same word. */
  ghost predicate FirstTokenOf(x: seq<Atom>)
    requires x != []
  {
    var g, rest := Grouped(x), Grouped(x[1..]);
    && g != []
    && match g[0]
       case Punctuator(c) => x[0].text == [c] && !IsWordAtom(x[0]) && rest == g[1..]
       case Literal(text) => x[0].text == text && !IsWordAtom(x[0]) && rest == g[1..]
       case Word(w) =>
         && w != [] && x[0].text == [w[0]] && IsWordAtom(x[0])
         && (|w| > 1 <==> |x| > 1 && IsWordAtom(x[1]) && !x[1].gap)
         && (rest == if |w| > 1 then [Word(w[1..])] + g[1..] else g[1..])
  }

  lemma {:induction false} FirstToken(x: seq<Atom>)
    requires x != [] && IsAtomText(x[0].text) && (|x| > 1 ==> IsAtomText(x[1].text))
    ensures FirstTokenOf(x)
  {
    hide IsIgnored, IsPunctuator;
    QuoteIsNoPunctuator();
    if |x| > 1 {
      WordFirst(x[1..]);
    }
  }

  lemma {:induction false} SameTokensSameWords(x: seq<Atom>, y: seq<Atom>)
    requires ValidAtoms(x) && ValidAtoms(y) && Grouped(x) == Grouped(y)
    ensures SameWords(x, y)
    decreases |x|
  {
    hide ValidAtoms, Grouped, IsWordAtom, IsAtomText;
    NoTokens();
    if x != [] {
      FirstTokenValid(x);
    }
    if y != [] {
      FirstTokenValid(y);
    }
    if x != [] && y != [] {
      SameTokensSameWords(x[1..], y[1..]);
      forall i | 0 < i < |x| && IsWordAtom(x[i - 1]) && IsWordAtom(x[i])
        ensures x[i].gap == y[i].gap
      {
        if i > 1 {
          assert x[1..][i - 2] == x[i - 1] && x[1..][i - 1] == x[i] && y[1..][i - 1] == y[i];
        } else {
          SameWordStart(x, y);
        }
      }
      forall i | 0 <= i < |x|
        ensures x[i].text == y[i].text
      {
        if i > 0 {
          assert x[1..][i - 1] == x[i] && y[1..][i - 1] == y[i];
        }
      }
    }
  }

  lemma {:induction false} FirstTokenValid(x: seq<Atom>)
    requires ValidAtoms(x) && x != []
    ensures ValidAtoms(x[1..])
    ensures FirstTokenOf(x)
  {
    hide ValidAtoms, IsWordAtom, Grouped;
    AtomShape(x);
    if |x| > 1 {
      AtomShape(x[1..]);
    }
    FirstToken(x);
  }

  lemma NoTokens()
    ensures Grouped([]) == []
  {
  }

  lemma {:induction false} SameWordStart(x: seq<Atom>, y: seq<Atom>)
    requires ValidAtoms(x) && ValidAtoms(y) && Grouped(x) == Grouped(y)
    requires |x| > 1 && |y| > 1 && IsWordAtom(x[0]) && IsWordAtom(x[1]) && x[1].text == y[1].text
    ensures x[1].gap == y[1].gap
  {
    hide ValidAtoms, Grouped;
    FirstTokenValid(x);
    FirstTokenValid(y);
  }

  lemma {:induction false} SameWordsSameMarksIff(before: string, x: seq<Atom>, y: seq<Atom>)
    requires ValidAtoms(x) && SameWords(x, y)
    requires x != [] && before != [] && |before| == 1 && IsWordChar(before[0]) && IsWordAtom(x[0]) ==> x[0].gap == y[0].gap
    requires before == [] || IsAtomText(before)
    ensures Kept(LastOf(before), x) == Kept(LastOf(before), y) <==> QuoteBlanks(before, x) == QuoteBlanks(before, y)
    decreases |x|
  {
    hide ValidAtoms, IsIgnored;
    if x != [] {
      var t := x[0].text;
      AtomShape(x);
      forall i | 0 < i < |x[1..]| && IsWordAtom(x[1..][i - 1]) && IsWordAtom(x[1..][i])
        ensures x[1..][i].gap == y[1..][i].gap
      {
        assert x[i] == x[1..][i - 1] && x[i + 1] == x[1..][i] && y[i + 1] == y[1..][i];
      }
      SameWordsSameMarksIff(t, x[1..], y[1..]);
      var kx, ky := Kept(LastOf(before), x), Kept(LastOf(before), y);
      assert kx[1..] == Kept(LastOf(t), x[1..]) && ky[1..] == Kept(LastOf(t), y[1..]);
      var bx, by_ := QuoteBlanks(before, x), QuoteBlanks(before, y);
      assert bx[1..] == QuoteBlanks(t, x[1..]) && by_[1..] == QuoteBlanks(t, y[1..]);
      assert kx == ky <==> kx[0] == ky[0] && kx[1..] == ky[1..] by {
        assert kx == [kx[0]] + kx[1..] && ky == [ky[0]] + ky[1..];
      }
      assert bx == by_ <==> bx[0] == by_[0] && bx[1..] == by_[1..] by {
        assert bx == [bx[0]] + bx[1..] && by_ == [by_[0]] + by_[1..];
      }
    }
  }

  /** Two queries normalise alike exactly when they have the same tokens and the same blanks beside string literals. */
  lemma NormalFormsEqualIff(q1: string, q2: string)
    ensures Normalize(q1) == Normalize(q2)
       <==> Tokens(q1) == Tokens(q2) && QuoteBlanks([], Atoms(q1, false)) == QuoteBlanks([], Atoms(q2, false))
  {
    hide Normalize, Tokens, Atoms, Grouped, QuoteBlanks, Kept, SameWords;
    var x, y := Atoms(q1, false), Atoms(q2, false);
    NormalFormIsComplete(q1, q2);
    TokensAreGrouped(q1, false);
    TokensAreGrouped(q2, false);
    AtomsAreValid(q1, false);
    AtomsAreValid(q2, false);
    if Normalize(q1) == Normalize(q2) {
      EqualNormalFormsEqualTokens(q1, q2);
    }
    if Tokens(q1) == Tokens(q2) {
      SameTokensSameWords(x, y);
      SameWordsSameMarksIff([], x, y);
    }
  }

  /** Equal tokens alone do not suffice. */
  lemma BlankBesideStringMatters()
    ensures Tokens("a\"\"") == Tokens("a \"\"") && Normalize("a\"\"") != Normalize("a \"\"")
  {
    hide Tokens, Atoms, Normalize, LiteralLength;
    var s := "\"\"";
    assert "a\"\"" == "a" + s && "a \"\"" == "a " + s;
    EmptyLiteral();
    AfterA(s);
    NormalFormsEqualIff("a" + s, "a " + s);
    var x, y := Atoms("a" + s, false), Atoms("a " + s, false);
    assert x[1..] == [Atom(false, s)] && y[1..] == [Atom(true, s)];
    assert QuoteBlanks([], x)[1] == QuoteBlanks("a", x[1..])[0] == false;
    assert QuoteBlanks([], y)[1] == QuoteBlanks("a", y[1..])[0] == true;
  }

  lemma EmptyLiteral()
    ensures var s := "\"\"";
      Tokens(s) == [Literal(s)] && Atoms(s, false) == [Atom(false, s)] && Atoms(s, true) == [Atom(true, s)]
  {
    var s := "\"\"";
    assert s[1..] == "\"" && BodyLength("\"", false) == 1;
    assert LiteralLength(s) == 2 && s[..2] == s && s[2..] == [];
    assert Tokens([]) == [] && Atoms([], false) == [];
  }

  lemma AfterA(s: string)
    requires s != [] && s[0] == '"'
    ensures Tokens("a" + s) == [Word("a")] + Tokens(s) == Tokens("a " + s)
    ensures Atoms("a" + s, false) == [Atom(false, "a")] + Atoms(s, false)
    ensures Atoms("a " + s, false) == [Atom(false, "a")] + Atoms(s, true)
  {
    hide LiteralLength;
    assert ("a" + s)[1..] == s && ("a " + s)[1..] == " " + s && (" " + s)[1..] == s;
    assert Tokens(" " + s) == Tokens(s) && Atoms(" " + s, false) == Atoms(s, true);
    assert ("a" + s)[0] == 'a' && ("a " + s)[0] == 'a' && ("a" + s)[1] == '"' && ("a " + s)[1] == ' ';
    assert IsWordChar('a') && !IsWordChar('"') && !IsWordChar(' ');
  }

  // ----- the scanner itself -----

  /** How many backslashes stand directly before position i. */
  function Backslashes(s: string, i: nat): (n: nat)
    requires i <= |s|
    ensures n <= i
  {
    if i == 0 || s[i - 1] != '\\' then 0 else 1 + Backslashes(s, i - 1)
  }

  method CountBackslashes(chars: string, i: nat) returns (backslashes: nat)
    requires i < |chars|
    ensures backslashes == Backslashes(chars, i)
  {
    var count: nat := 0;
    var j := i;
    while j > 0
      invariant 0 <= j <= i && count + Backslashes(chars, j) == Backslashes(chars, i)
      invariant j < i ==> chars[j] == '\\'
    {
      j := j - 1;
      if chars[j] == '\\' {
        count := count + 1;
      } else {
        return count;
      }
    }
    backslashes := count;
  }

  /** What was written last, as the scanner sees it in its output. */
  function LastWritten(out: string): Last {
    if out == [] then Nothing else if IsPunctuator(out[|out| - 1]) then Punct else Other
  }

  /** The rest of a string literal, verbatim, and what follows it. */
  ghost function InBody(s: string, escaped: bool): string {
    var n := BodyLength(s, escaped);
    s[..n] + Render(Other, Atoms(s[n..], false))
  }

  lemma InBodyStep(s: string, escaped: bool)
    requires s != [] && (s[0] != '"' || escaped)
    ensures InBody(s, escaped) == [s[0]] + InBody(s[1..], s[0] == '\\' && !escaped)
  {
    hide Render, Atoms;
    var n := BodyLength(s[1..], s[0] == '\\' && !escaped);
    assert s[..n + 1] == [s[0]] + s[1..][..n] && s[n + 1..] == s[1..][n..];
  }

  /** What is still to be written from position i on. */
  ghost function Remaining(chars: string, i: nat, inString: bool, inComment: bool, pending: bool, last: Last): string
    requires i <= |chars|
  {
    var s := chars[i..];
    if inComment then Render(last, Atoms(AfterComment(s), true))
    else if inString then InBody(s, Backslashes(chars, i) % 2 == 1)
    else Render(last, Atoms(s, pending))
  }

  /** The output so far, then what remains, is the normal form. */
  ghost predicate OnTrack(chars: string, i: nat, inString: bool, inComment: bool, pending: bool, out: string)
    requires i <= |chars|
  {
    out + Remaining(chars, i, inString, inComment, pending, LastWritten(out)) == Normalize(chars)
  }

  method NormalizeQuery(query: string) returns (normalized: string)
    ensures normalized == Normalize(query)
  {
    hide OnTrack, Normalize, Backslashes, IsWhitespace, IsPunctuator;
    var chars := query;
    var inString, inComment, pendingSpace := false, false, false;
    normalized := "";
    var i := 0;
    ScanStart(chars);
    while i < |chars|
      invariant i <= |chars| && !(inString && inComment) && (inString ==> !pendingSpace)
      invariant OnTrack(chars, i, inString, inComment, pendingSpace, normalized)
    {
      var c := chars[i];
      if inComment {
        CommentStep(chars, i, pendingSpace, normalized);
        if c == '\n' || c == '\r' {
          inComment := false;
          pendingSpace := true;
        }
        i := i + 1;
        continue;
      }
      if inString {
        StringStep(chars, i, normalized);
        normalized := normalized + [c];
        if c == '"' {
          var backslashes := CountBackslashes(chars, i);
          if backslashes % 2 == 0 {
            inString := false;
          }
        }
        i := i + 1;
        continue;
      }
      if c == '"' {
        QuoteStep(chars, i, pendingSpace, normalized);
        inString := true;
        if pendingSpace {
          if |normalized| > 0 && !IsPunctuator(normalized[|normalized| - 1]) {
            normalized := normalized + [' '];
          }
        }
        normalized := normalized + [c];
        pendingSpace := false;
        i := i + 1;
        continue;
      }
      if c == '#' {
        SkipStep(chars, i, pendingSpace, normalized);
        inComment := true;
        i := i + 1;
        continue;
      }
      if IsWhitespace(c) || c == ',' {
        SkipStep(chars, i, pendingSpace, normalized);
        pendingSpace := true;
        i := i + 1;
        continue;
      }
      CharStep(chars, i, pendingSpace, normalized);
      if pendingSpace {
        if |normalized| > 0 && !IsPunctuator(normalized[|normalized| - 1]) && !IsPunctuator(c) {
          normalized := normalized + [' '];
        }
      }
      normalized := normalized + [c];
      pendingSpace := false;
      i := i + 1;
    }
    ScanEnd(chars, inString, inComment, pendingSpace, normalized);
  }

  lemma ScanStart(chars: string)
    ensures OnTrack(chars, 0, false, false, false, "")
  {
    assert chars[0..] == chars && "" + Normalize(chars) == Normalize(chars);
  }

  lemma ScanEnd(chars: string, inString: bool, inComment: bool, pending: bool, out: string)
    requires OnTrack(chars, |chars|, inString, inComment, pending, out)
    ensures out == Normalize(chars)
  {
    assert chars[|chars|..] == [];
    assert Remaining(chars, |chars|, inString, inComment, pending, LastWritten(out)) == [];
    assert out + [] == out;
  }

  lemma CommentStep(chars: string, i: nat, pending: bool, out: string)
    requires i < |chars| && OnTrack(chars, i, false, true, pending, out)
    ensures if IsLineEnd(chars[i]) then OnTrack(chars, i + 1, false, false, true, out)
            else OnTrack(chars, i + 1, false, true, pending, out)
  {
    hide Atoms, Render, Normalize;
    assert chars[i..][1..] == chars[i + 1..];
  }

  /** Ignored text and the start of a comment write nothing. */
  lemma SkipStep(chars: string, i: nat, pending: bool, out: string)
    requires i < |chars| && (chars[i] == '#' || IsIgnored(chars[i])) && OnTrack(chars, i, false, false, pending, out)
    ensures if chars[i] == '#' then OnTrack(chars, i + 1, false, true, pending, out)
            else OnTrack(chars, i + 1, false, false, true, out)
  {
    hide Render, Normalize;
    assert chars[i..][1..] == chars[i + 1..];
  }

  /** A character of a string is copied; the string ends with a quote behind an even number of backslashes. */
  lemma StringStep(chars: string, i: nat, out: string)
    requires i < |chars| && OnTrack(chars, i, true, false, false, out)
    ensures var closes := chars[i] == '"' && Backslashes(chars, i) % 2 == 0;
      OnTrack(chars, i + 1, !closes, false, false, out + [chars[i]])
  {
    hide OnTrack, Backslashes;
    if chars[i] == '"' && Backslashes(chars, i) % 2 == 0 {
      StringEnds(chars, i, out);
    } else {
      StringGoesOn(chars, i, out);
    }
  }

  lemma StringEnds(chars: string, i: nat, out: string)
    requires i < |chars| && OnTrack(chars, i, true, false, false, out)
    requires chars[i] == '"' && Backslashes(chars, i) % 2 == 0
    ensures OnTrack(chars, i + 1, false, false, false, out + [chars[i]])
  {
    hide Atoms, Render, Normalize, Backslashes, IsPunctuator;
    var s, rest := chars[i..], chars[i + 1..];
    assert s[0] == chars[i] && s[1..] == rest;
    QuoteIsNoPunctuator();
    BodyEnds(s);
    var later := Render(Other, Atoms(rest, false));
    assert out + ([chars[i]] + later) == out + [chars[i]] + later;
  }

  lemma StringGoesOn(chars: string, i: nat, out: string)
    requires i < |chars| && OnTrack(chars, i, true, false, false, out)
    requires chars[i] != '"' || Backslashes(chars, i) % 2 == 1
    ensures OnTrack(chars, i + 1, true, false, false, out + [chars[i]])
  {
    hide InBody, Normalize, Backslashes, LastWritten;
    var s := chars[i..];
    assert s[0] == chars[i] && s[1..] == chars[i + 1..];
    EscapeStep(chars, i);
    InBodyStep(s, Backslashes(chars, i) % 2 == 1);
    var later := InBody(chars[i + 1..], Backslashes(chars, i + 1) % 2 == 1);
    assert out + ([chars[i]] + later) == out + [chars[i]] + later;
  }

  lemma QuoteIsNoPunctuator()
    ensures !IsPunctuator('"')
  {
  }

  lemma BodyEnds(s: string)
    requires s != [] && s[0] == '"'
    ensures BodyLength(s, false) == 1 && s[..1] == ['"']
  {
  }

  /** The parity of the backslashes is the reference's escape flag. */
  lemma EscapeStep(chars: string, i: nat)
    requires i < |chars|
    ensures (Backslashes(chars, i + 1) % 2 == 1) == (chars[i] == '\\' && Backslashes(chars, i) % 2 == 0)
  {
  }

  function Spaced(pending: bool, out: string, next: Last): string {
    if pending && LastWritten(out) == Other && next == Other then out + [' '] else out
  }

  lemma RenderFirst(out: string, a: Atom, rest: seq<Atom>)
    requires a.text != []
    ensures out + Render(LastWritten(out), [a] + rest)
         == Spaced(a.gap, out, LastOf(a.text)) + (a.text + Render(LastOf(a.text), rest))
  {
    var last, later := LastWritten(out), Render(LastOf(a.text), rest);
    assert ([a] + rest)[1..] == rest;
    if NeedsBlank(last, a) {
      assert Render(last, [a] + rest) == " " + a.text + later;
      assert out + (" " + a.text + later) == out + [' '] + (a.text + later);
    } else {
      assert Render(last, [a] + rest) == "" + a.text + later == a.text + later;
    }
  }

  lemma QuoteStep(chars: string, i: nat, pending: bool, out: string)
    requires i < |chars| && chars[i] == '"' && OnTrack(chars, i, false, false, pending, out)
    ensures OnTrack(chars, i + 1, true, false, false, Spaced(pending, out, Other) + ['"'])
  {
    hide Render, Normalize, Spaced, IsPunctuator, Backslashes, InBody;
    EscapeStep(chars, i);
    QuoteIsNoPunctuator();
    var s, rest := chars[i..], chars[i + 1..];
    assert s[0] == '"' && s[1..] == rest;
    var n := LiteralLength(s);
    RenderFirst(out, Atom(pending, s[..n]), Atoms(s[n..], false));
    LiteralIsBody(s);
    var out' := Spaced(pending, out, Other);
    assert out' + (['"'] + InBody(rest, false)) == out' + ['"'] + InBody(rest, false);
  }

  lemma LiteralIsBody(s: string)
    requires s != [] && s[0] == '"'
    ensures var n := LiteralLength(s); s[..n] + Render(Other, Atoms(s[n..], false)) == ['"'] + InBody(s[1..], false)
  {
    hide Render, Atoms;
    var n := BodyLength(s[1..], false);
    assert s[..n + 1] == ['"'] + s[1..][..n] && s[n + 1..] == s[1..][n..];
  }

  lemma CharStep(chars: string, i: nat, pending: bool, out: string)
    requires i < |chars| && chars[i] != '"' && chars[i] != '#' && !IsIgnored(chars[i])
    requires OnTrack(chars, i, false, false, pending, out)
    ensures OnTrack(chars, i + 1, false, false, false, Spaced(pending, out, LastOf([chars[i]])) + [chars[i]])
  {
    hide Render, Normalize, Spaced;
    var s, rest := chars[i..], chars[i + 1..];
    assert s[0] == chars[i] && s[1..] == rest;
    RenderFirst(out, Atom(pending, [chars[i]]), Atoms(rest, false));
    var later := Render(LastOf([chars[i]]), Atoms(rest, false));
    var out' := Spaced(pending, out, LastOf([chars[i]]));
    assert out' + ([chars[i]] + later) == out' + [chars[i]] + later;
  }
}
