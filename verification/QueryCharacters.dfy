/** The characters of a query, in figures: which are ignored, which stand alone, where comments end, where blanks stay. */
module QueryCharacters {
  import opened QueryNormalizer

  /** Blanks, line ends and the other characters of Unicode's White_Space, and the comma. */
  ghost predicate Skipped(c: char) {
    var n := c as int;
    9 <= n <= 13 || n == 0x20 || n == 0x2C || n == 0x85 || n == 0xA0 || n == 0x1680 || 0x2000 <= n <= 0x200A
    || n == 0x2028 || n == 0x2029 || n == 0x202F || n == 0x205F || n == 0x3000
  }

  ghost predicate StandsAlone(c: char) {
    || c == '!' || c == '$' || c == '(' || c == ')' || c == ':' || c == '=' || c == '@' || c == '[' || c == ']'
    || c == '{' || c == '|' || c == '}'
  }

  /** The tokens of a query of one character. */
  lemma OneCharacter(c: char)
    ensures Tokens([c])
         == if c == '"' then [Literal([c])]
            else if c == '#' || Skipped(c) then []
            else if StandsAlone(c) then [Punctuator(c)]
            else [Word([c])]
  {
    assert [c][1..] == [] && Tokens([]) == [];
    CharacterKinds(c);
    if c == '"' {
      assert [c][..1] == [c];
    }
  }

  lemma CharacterKinds(c: char)
    ensures IsIgnored(c) <==> Skipped(c)
    ensures IsPunctuator(c) <==> StandsAlone(c)
  {
  }

  /** A comment goes up to the next line feed or carriage return, or to the end. */
  lemma CommentEnds(line: string, end: char, rest: string)
    requires '\n' !in line && '\r' !in line && (end == '\n' || end == '\r')
    ensures Tokens("#" + line) == [] && Tokens("#" + line + [end] + rest) == Tokens(rest)
  {
    var s := "#" + line + [end] + rest;
    LineSkipped(line, [end] + rest);
    LineSkipped(line, "");
    assert s[1..] == line + ([end] + rest) && ("#" + line)[1..] == line == line + "";
    assert ([end] + rest)[1..] == rest;
  }

  lemma {:induction false} LineSkipped(line: string, rest: string)
    requires '\n' !in line && '\r' !in line
    ensures AfterComment(line + rest) == AfterComment(rest)
  {
    if line == "" {
      assert line + rest == rest;
    } else {
      assert (line + rest)[1..] == line[1..] + rest;
      LineSkipped(line[1..], rest);
    }
  }

  predicate Ordinary(c: char) {
    c != '"' && c != '#'
  }

  lemma OneAtom(b: char, gap: bool)
    requires Ordinary(b) && !IsIgnored(b)
    ensures Atoms([b], gap) == [Atom(gap, [b])]
  {
    assert [b][1..] == [] && Atoms([], false) == [];
  }

  lemma FirstAtom(a: char, rest: string)
    requires Ordinary(a) && !IsIgnored(a)
    ensures Atoms([a] + rest, false) == [Atom(false, [a])] + Atoms(rest, false)
  {
    assert ([a] + rest)[1..] == rest;
  }

  lemma GapSkipped(gap: char, rest: string)
    requires Ordinary(gap) && IsIgnored(gap)
    ensures Atoms([gap] + rest, false) == Atoms(rest, true)
  {
    assert ([gap] + rest)[1..] == rest;
  }

  /** Between two characters that are no strings, ignored text is one blank, or nothing beside a punctuator. */
  lemma BlankStays(a: char, gap: char, b: char)
    requires Ordinary(a) && Ordinary(b) && !Skipped(a) && !Skipped(b) && Skipped(gap)
    ensures Normalize([a, gap, b]) == if StandsAlone(a) || StandsAlone(b) then [a, b] else [a, ' ', b]
    ensures Normalize([a, b]) == [a, b]
  {
    hide Atoms, Render, Skipped, StandsAlone, IsIgnored, IsPunctuator;
    CharacterKinds(a);
    CharacterKinds(b);
    CharacterKinds(gap);
    NoQuote(gap);
    OneAtom(b, true);
    OneAtom(b, false);
    GapSkipped(gap, [b]);
    FirstAtom(a, [gap] + [b]);
    FirstAtom(a, [b]);
    TwoAtoms(Atom(false, [a]), Atom(true, [b]));
    TwoAtoms(Atom(false, [a]), Atom(false, [b]));
    assert [a, gap, b] == [a] + ([gap] + [b]) && [a, b] == [a] + [b];
    assert Atoms([a, gap, b], false) == [Atom(false, [a]), Atom(true, [b])];
    assert Atoms([a, b], false) == [Atom(false, [a]), Atom(false, [b])];
  }

  lemma NoQuote(gap: char)
    requires Skipped(gap)
    ensures Ordinary(gap)
  {
  }

  lemma TwoAtoms(x: Atom, y: Atom)
    requires !x.gap
    ensures Render(Nothing, [x, y]) == x.text + (if NeedsBlank(LastOf(x.text), y) then " " else "") + y.text
  {
    hide NeedsBlank, LastOf;
    assert [x, y][1..] == [y] && [y][1..] == [];
    assert Render(LastOf(y.text), []) == [];
    assert !NeedsBlank(Nothing, x) by { NoBlankFirst(x); }
    var gap := if NeedsBlank(LastOf(x.text), y) then " " else "";
    assert Render(LastOf(x.text), [y]) == gap + y.text + [] == gap + y.text;
    assert "" + x.text + (gap + y.text) == x.text + gap + y.text;
  }

  lemma NoBlankFirst(x: Atom)
    requires !x.gap
    ensures !NeedsBlank(Nothing, x)
  {
  }
}
