/**
 The text of a path as steps: names joined by dots, positions in brackets.  Paths of plain names
 differ in their text.  With one other name among them they still do exactly when that name is
 not empty and does not read as a path itself: where it could be confused with plain steps, all
 of it would be read as steps, unless it overlaps itself, and then it is read as steps too.
 */
module PathTexts {
  import opened JsonTree

  function Decimal(n: nat): (digits: string)
    ensures digits != [] && forall c <- digits :: '0' <= c <= '9'
  {
    var last := ['0' + (n % 10) as char];
    if n < 10 then last else Decimal(n / 10) + last
  }

  /** A path's text with one more step: names are joined by dots, the first stands alone. */
  function Append(text: string, step: Step): string {
    match step
    case Key(name) => if text == "" then name else text + "." + name
    case Index(i) => text + "[" + Decimal(i) + "]"
  }

  function Text(path: seq<Step>): string
    decreases |path|
  {
    if path == [] then "" else Append(Text(path[..|path| - 1]), path[|path| - 1])
  }

  /** A name that is not empty and has none of the characters that join. */
  predicate PlainName(name: string) {
    name != "" && '.' !in name && '[' !in name
  }

  predicate PlainPath(path: seq<Step>) {
    forall i :: 0 <= i < |path| && path[i].Key? ==> PlainName(path[i].name)
  }

  /** A step after some text. */
  function Suffix(step: Step): string {
    match step
    case Key(name) => "." + name
    case Index(i) => "[" + Decimal(i) + "]"
  }

  function Suffixes(path: seq<Step>): string
    decreases |path|
  {
    if path == [] then "" else Suffix(path[0]) + Suffixes(path[1..])
  }

  function First(step: Step): string {
    match step
    case Key(name) => name
    case Index(_) => Suffix(step)
  }

  lemma {:induction false} SuffixesGrow(path: seq<Step>, step: Step)
    ensures Suffixes(path + [step]) == Suffixes(path) + Suffix(step)
    decreases |path|
  {
    if path == [] {
      assert [step][1..] == [] && path + [step] == [step];
    } else {
      assert (path + [step])[1..] == path[1..] + [step];
      SuffixesGrow(path[1..], step);
    }
  }

  /** The first step as it is, the others with what joins them. */
  lemma {:induction false} TextIsJoined(path: seq<Step>)
    requires path != [] && First(path[0]) != ""
    ensures Text(path) == First(path[0]) + Suffixes(path[1..])
    decreases |path|
  {
    hide Decimal, Text, Append, Suffix, Suffixes, First;
    var front, last := path[..|path| - 1], path[|path| - 1];
    TextUnfolds(path);
    if front == [] {
      assert path[1..] == [];
      FirstText(last);
    } else {
      TextIsJoined(front);
      AppendSuffix(Text(front), last);
      assert path[1..] == front[1..] + [last];
      SuffixesGrow(front[1..], last);
    }
  }

  lemma TextUnfolds(path: seq<Step>)
    requires path != []
    ensures Text(path) == Append(Text(path[..|path| - 1]), path[|path| - 1]) && Text([]) == ""
  {
  }

  lemma FirstText(step: Step)
    ensures Append("", step) == First(step) + Suffixes([])
  {
    hide Decimal;
  }

  lemma FirstNotEmpty(step: Step)
    requires step.Key? ==> PlainName(step.name)
    ensures First(step) != "" && (First(step)[0] == '[' <==> step.Index?)
  {
    hide Decimal;
  }

  lemma AppendSuffix(text: string, step: Step)
    requires text != ""
    ensures Append(text, step) == text + Suffix(step)
  {
    hide Decimal;
  }

  /** How many characters come before the first of the two given. */
  function Before(s: string, a: char, b: char): (n: nat)
    ensures n <= |s|
  {
    if s == "" || s[0] == a || s[0] == b then 0 else 1 + Before(s[1..], a, b)
  }

  lemma {:induction false} BeforeAppended(s: string, a: char, b: char, rest: string)
    requires a !in s && b !in s && (rest == "" || rest[0] == a || rest[0] == b)
    ensures Before(s + rest, a, b) == |s|
  {
    if s == "" {
      assert s + rest == rest;
    } else {
      assert (s + rest)[1..] == s[1..] + rest;
      BeforeAppended(s[1..], a, b, rest);
    }
  }

  lemma {:induction false} SplitAt(s: string, t: string, a: char, b: char, rest: string, more: string)
    requires a !in s && b !in s && a !in t && b !in t && s + rest == t + more
    requires (rest == "" || rest[0] == a || rest[0] == b) && (more == "" || more[0] == a || more[0] == b)
    ensures s == t && rest == more
  {
    BeforeAppended(s, a, b, rest);
    BeforeAppended(t, a, b, more);
    assert s == (s + rest)[..|s|] && t == (t + more)[..|t|];
    assert rest == (s + rest)[|s|..] && more == (t + more)[|t|..];
  }

  lemma {:induction false} DecimalInjective(m: nat, n: nat)
    requires Decimal(m) == Decimal(n)
    ensures m == n
    decreases m
  {
    var a, b := Decimal(m), Decimal(n);
    assert a[|a| - 1] == '0' + (m % 10) as char && b[|b| - 1] == '0' + (n % 10) as char;
    if m >= 10 && n >= 10 {
      assert Decimal(m / 10) == a[..|a| - 1] && Decimal(n / 10) == b[..|b| - 1];
      DecimalInjective(m / 10, n / 10);
    }
  }

  lemma SuffixesStart(path: seq<Step>)
    ensures Suffixes(path) == "" <==> path == []
    ensures path != [] ==> Suffixes(path)[0] == if path[0].Key? then '.' else '['
  {
    hide Decimal;
  }

  lemma SuffixStart(a: Step, rest: string)
    ensures Suffix(a) + rest != "" && ((Suffix(a) + rest)[0] == '.' <==> a.Key?)
    ensures (Suffix(a) + rest)[1..] == if a.Key? then a.name + rest else Decimal(a.i) + ("]" + rest)
  {
    hide Decimal;
    assert (Suffix(a) + rest)[1..] == Suffix(a)[1..] + rest;
    if a.Index? {
      assert Suffix(a)[1..] == Decimal(a.i) + "]";
      assert Decimal(a.i) + "]" + rest == Decimal(a.i) + ("]" + rest);
    }
  }

  lemma SameKey(a: string, b: string, rest: string, more: string)
    requires PlainName(a) && PlainName(b) && a + rest == b + more
    requires (rest == "" || rest[0] == '.' || rest[0] == '[') && (more == "" || more[0] == '.' || more[0] == '[')
    ensures a == b && rest == more
  {
    SplitAt(a, b, '.', '[', rest, more);
  }

  lemma SameIndex(a: nat, b: nat, rest: string, more: string)
    requires Decimal(a) + ("]" + rest) == Decimal(b) + ("]" + more)
    ensures a == b && rest == more
  {
    hide Decimal;
    SplitAt(Decimal(a), Decimal(b), ']', ']', "]" + rest, "]" + more);
    DecimalInjective(a, b);
    assert ("]" + rest)[1..] == rest && ("]" + more)[1..] == more;
  }

  // ----- names that read as paths -----------------------------------------------------

  /** The plain path has the text. */
  predicate Spells(text: string, path: seq<Step>) {
    path != [] && path[0].Key? && PlainPath(path) && Text(path) == text
  }

  /** The name is the text of a plain path of several steps. */
  ghost predicate Spelled(name: string) {
    exists path :: |path| >= 2 && Spells(name, path)
  }

  lemma {:induction false} SuffixesJoin(p: seq<Step>, q: seq<Step>)
    ensures Suffixes(p + q) == Suffixes(p) + Suffixes(q)
    decreases |q|
  {
    hide Suffix, Suffixes;
    if q == [] {
      assert p + q == p;
      SuffixesStart(q);
    } else {
      var front, last := q[..|q| - 1], q[|q| - 1];
      SuffixesJoin(p, front);
      SuffixesGrow(p + front, last);
      SuffixesGrow(front, last);
      assert p + q == (p + front) + [last] && q == front + [last];
      assert Suffixes(p) + (Suffixes(front) + Suffix(last)) == Suffixes(p) + Suffixes(front) + Suffix(last);
    }
  }

  lemma TextOfKey(name: string, path: seq<Step>)
    requires name != ""
    ensures Text([Key(name)] + path) == name + Suffixes(path)
  {
    hide Text, Suffixes;
    assert ([Key(name)] + path)[1..] == path;
    TextIsJoined([Key(name)] + path);
  }

  lemma OneStepText(name: string)
    ensures Text([Key(name)]) == name
  {
    hide Decimal;
    assert [Key(name)][..0] == [];
  }

  lemma TextGrows(path: seq<Step>, step: Step)
    ensures Text(path + [step]) == Append(Text(path), step)
  {
    assert (path + [step])[..|path|] == path;
  }

  /** No character inside a plain step begins another. */
  lemma InsideStep(step: Step, m: nat)
    requires (step.Key? ==> PlainName(step.name)) && 1 <= m < |Suffix(step)|
    ensures Suffix(step)[m] != '.' && Suffix(step)[m] != '['
  {
    hide Decimal;
    match step
    case Key(name) => assert Suffix(step)[m] == name[m - 1];
    case Index(i) =>
      if m - 1 < |Decimal(i)| {
        assert Suffix(step)[m] == Decimal(i)[m - 1] && Decimal(i)[m - 1] in Decimal(i);
      }
  }

  lemma OneName(path: seq<Step>, n: nat)
    requires Spells(Text(path), path) && |path| == 1 && n < |Text(path)|
    ensures Text(path)[n] != '.' && Text(path)[n] != '['
  {
    hide Text;
    OneStepText(path[0].name);
    assert path == [Key(path[0].name)];
  }

  /** Up to where a step begins, what spells a plain path spells the first steps of it. */
  lemma {:induction false} CutAt(path: seq<Step>, n: nat) returns (i: nat)
    requires Spells(Text(path), path) && n < |Text(path)| && (Text(path)[n] == '.' || Text(path)[n] == '[')
    ensures 1 <= i < |path| && Spells(Text(path)[..n], path[..i])
    decreases |path|
  {
    hide Decimal, Text, Append, Suffix;
    var front, last := path[..|path| - 1], path[|path| - 1];
    assert path == front + [last];
    if front == [] {
      OneName(path, n);
      assert false;
    } else {
      TextGrows(front, last);
      FirstNotEmpty(front[0]);
      TextIsJoined(front);
      AppendSuffix(Text(front), last);
      assert Spells(Text(front), front);
      if n < |Text(front)| {
        i := CutAt(front, n);
        assert front[..i] == path[..i] && Text(path)[..n] == Text(front)[..n];
      } else {
        if n > |Text(front)| {
          InsideStep(last, n - |Text(front)|);
        }
        i := |front|;
        assert Text(path)[..n] == Text(front);
      }
    }
  }

  lemma SpellsJoined(u: string, p: seq<Step>, w: string, q: seq<Step>)
    requires Spells(u, p) && Spells(w, q)
    ensures Spells(u + "." + w, p + q)
  {
    hide Decimal, Text, Suffixes, First, PlainName;
    FirstNotEmpty(p[0]);
    FirstNotEmpty(q[0]);
    TextIsJoined(p);
    TextIsJoined(q);
    TextIsJoined(p + q);
    assert (p + q)[1..] == p[1..] + q;
    SuffixesJoin(p[1..], q);
    SuffixesOfName(q);
    assert First(p[0]) + (Suffixes(p[1..]) + ("." + w)) == u + "." + w;
  }

  lemma SuffixesOfName(q: seq<Step>)
    requires q != [] && q[0].Key?
    ensures Suffixes(q) == "." + (First(q[0]) + Suffixes(q[1..]))
  {
  }

  /** A text that begins with itself after a spelled part is spelled wherever a step could begin. */
  lemma {:induction false} Overlap(k: string, u: string, p: seq<Step>, n: nat) returns (r: seq<Step>)
    requires Spells(u, p) && |u| < |k| && n < |k| && (k[n] == '.' || k[n] == '[')
    requires k[..|u|] == u && k[|u|] == '.' && forall m :: |u| < m < |k| ==> k[m] == k[m - |u| - 1]
    ensures Spells(k[..n], r)
    decreases n
  {
    hide Text, PlainPath;
    if n < |u| {
      assert u[n] == k[n] && u[..n] == k[..n];
      var i := CutAt(p, n);
      r := p[..i];
    } else if n == |u| {
      r := p;
    } else {
      var m := n - |u| - 1;
      var q := Overlap(k, u, p, m);
      SpellsJoined(u, p, k[..m], q);
      r := p + q;
      forall x | |u| < x < n
        ensures k[x] == (u + "." + k[..m])[x]
      {
      }
      assert k[..n] == u + "." + k[..m];
    }
  }

  // ----- paths of plain names and one other ---------------------------------------------

  predicate NameOk(name: string, odd: string) {
    PlainName(name) || name == odd
  }

  predicate PathOk(path: seq<Step>, odd: string) {
    forall i :: 0 <= i < |path| && path[i].Key? ==> NameOk(path[i].name, odd)
  }

  /** The name can stand among plain ones. */
  ghost predicate Sound(odd: string) {
    PlainName(odd) || (odd != "" && !Spelled(odd))
  }

  /** Where the odd name first occurs. */
  function FirstOdd(path: seq<Step>, odd: string): (j: nat)
    ensures j <= |path| && (j < |path| ==> path[j] == Key(odd))
    ensures forall i :: 0 <= i < j ==> path[i] != Key(odd)
  {
    if path == [] || path[0] == Key(odd) then 0 else 1 + FirstOdd(path[1..], odd)
  }

  /** A text that starts with the odd name does not start with a plain one. */
  lemma OddApart(odd: string, rest: seq<Step>, b: string, more: seq<Step>)
    requires Sound(odd) && !PlainName(odd) && PlainName(b) && PathOk(more, odd)
    ensures odd + Suffixes(rest) != b + Suffixes(more)
  {
    hide Text, Suffixes, Suffix, Spelled, Spells, PathOk, PlainName;
    var text := b + Suffixes(more);
    if odd + Suffixes(rest) == text {
      var j := FirstOdd(more, odd);
      var front := [Key(b)] + more[..j];
      var u := Text(front);
      PlainFront(odd, b, more);
      assert more == more[..j] + more[j..];
      SuffixesJoin(more[..j], more[j..]);
      assert text == u + Suffixes(more[j..]);
      SuffixesStart(rest);
      TwoWays(text, odd, Suffixes(rest), u, Suffixes(more[j..]));
      if |odd| <= |u| {
        ShortOdd(odd, b, front);
      } else {
        SuffixesStart(more[j..]);
        TextAfterOdd(text, u, odd, more[j..]);
        LongOdd(odd, u, front, text);
      }
    }
  }

  /** One text cut in two places. */
  lemma TwoWays(text: string, a: string, x: string, b: string, y: string)
    requires text == a + x == b + y
    ensures text[..|a|] == a && text[..|b|] == b && (|a| < |text| ==> x != "" && text[|a|] == x[0])
    ensures |a| <= |b| ==> a == b[..|a|] && (|a| < |b| ==> b[|a|] == text[|a|])
  {
    assert |a| <= |b| ==> text[..|a|] == b[..|a|];
  }

  lemma PlainFront(odd: string, b: string, more: seq<Step>)
    requires PlainName(b) && PathOk(more, odd)
    ensures var j := FirstOdd(more, odd);
      var front := [Key(b)] + more[..j];
      Spells(Text(front), front) && Text(front) == b + Suffixes(more[..j])
  {
    hide Decimal, Text, Suffixes;
    var j := FirstOdd(more, odd);
    TextOfKey(b, more[..j]);
  }

  lemma ShortOdd(odd: string, b: string, front: seq<Step>)
    requires Spells(Text(front), front) && front[0] == Key(b) && |odd| <= |Text(front)|
    requires odd == Text(front)[..|odd|] && !PlainName(odd)
    requires |odd| < |Text(front)| ==> Text(front)[|odd|] == '.' || Text(front)[|odd|] == '['
    ensures Spelled(odd)
  {
    hide Text;
    OneStepText(b);
    assert front[..1] == [Key(b)];
    var i := |front|;
    if |odd| < |Text(front)| {
      i := CutAt(front, |odd|);
    } else {
      assert front[..i] == front && odd == Text(front);
    }
    assert Spells(odd, front[..i]);
    assert |front[..i]| >= 2;
  }

  lemma TextAfterOdd(text: string, u: string, odd: string, more: seq<Step>)
    requires text == u + Suffixes(more) && more != [] && more[0] == Key(odd)
    ensures |text| > |u| + |odd| && text[|u|] == '.' && forall m :: 0 <= m < |odd| ==> text[|u| + 1 + m] == odd[m]
  {
    assert text == u + ("." + odd + Suffixes(more[1..]));
  }

  lemma LongOdd(odd: string, u: string, front: seq<Step>, text: string)
    requires Spells(u, front) && |u| < |odd| && !PlainName(odd)
    requires |text| > |u| + |odd| && text[..|odd|] == odd && text[..|u|] == u && text[|u|] == '.'
    requires forall m :: 0 <= m < |odd| ==> text[|u| + 1 + m] == odd[m]
    requires text[|odd|] == '.' || text[|odd|] == '['
    ensures Spelled(odd)
  {
    hide Text, PlainPath;
    var n := |odd| - |u| - 1;
    assert odd[n] == text[|odd|] by {
      assert text[|u| + 1 + n] == odd[n];
    }
    forall m | |u| < m < |odd|
      ensures odd[m] == odd[m - |u| - 1]
    {
      assert text[|u| + 1 + (m - |u| - 1)] == odd[m - |u| - 1];
    }
    assert odd[..|u|] == u && odd[|u|] == '.';
    var r := Overlap(odd, u, front, n);
    SpellsJoined(u, front, odd[..n], r);
    assert odd == u + "." + odd[..n];
    assert |front + r| >= 2;
  }

  lemma KeyStep(a: string, b: string, odd: string, p: seq<Step>, q: seq<Step>)
    requires Sound(odd) && NameOk(a, odd) && NameOk(b, odd) && PathOk(p, odd) && PathOk(q, odd)
    requires a + Suffixes(p) == b + Suffixes(q)
    ensures a == b && Suffixes(p) == Suffixes(q)
  {
    hide Suffixes, Sound;
    SuffixesStart(p);
    SuffixesStart(q);
    if PlainName(a) && PlainName(b) {
      SameKey(a, b, Suffixes(p), Suffixes(q));
    } else if a == b {
      assert (a + Suffixes(p))[|a|..] == Suffixes(p) && (b + Suffixes(q))[|b|..] == Suffixes(q);
    } else if PlainName(b) {
      OddApart(odd, p, b, q);
    } else {
      OddApart(odd, q, a, p);
    }
  }

  lemma {:induction false} SuffixesApart(p: seq<Step>, q: seq<Step>, odd: string)
    requires Sound(odd) && PathOk(p, odd) && PathOk(q, odd) && Suffixes(p) == Suffixes(q)
    ensures p == q
    decreases |p|
  {
    hide Decimal, Sound, NameOk;
    SuffixesStart(p);
    SuffixesStart(q);
    if p != [] {
      SameStart(p, q, odd);
      SuffixesApart(p[1..], q[1..], odd);
      assert p == [p[0]] + p[1..] && q == [q[0]] + q[1..];
    }
  }

  lemma SameStart(p: seq<Step>, q: seq<Step>, odd: string)
    requires Sound(odd) && PathOk(p, odd) && PathOk(q, odd) && p != [] && q != [] && Suffixes(p) == Suffixes(q)
    ensures p[0] == q[0] && Suffixes(p[1..]) == Suffixes(q[1..])
  {
    hide Suffix, Sound, NameOk;
    var rest, more := Suffixes(p[1..]), Suffixes(q[1..]);
    SuffixStart(p[0], rest);
    SuffixStart(q[0], more);
    assert Suffix(p[0]) + rest == Suffix(q[0]) + more;
    if p[0].Key? {
      KeyStep(p[0].name, q[0].name, odd, p[1..], q[1..]);
    } else {
      SameIndex(p[0].i, q[0].i, rest, more);
    }
  }

  lemma PathOkRest(path: seq<Step>, odd: string)
    requires PathOk(path, odd) && path != []
    ensures PathOk(path[1..], odd) && (path[0].Key? ==> NameOk(path[0].name, odd))
  {
  }

  /** Paths that start alike, with a name or with an index, and have one text. */
  lemma TextsApart(p: seq<Step>, q: seq<Step>, odd: string)
    requires Sound(odd) && PathOk(p, odd) && PathOk(q, odd) && Text(p) == Text(q)
    requires p != [] && q != [] && (p[0].Key? <==> q[0].Key?)
    ensures p == q
  {
    hide Text, Suffixes, Suffix, First, Sound, PathOk, NameOk;
    PathOkRest(p, odd);
    PathOkRest(q, odd);
    SoundNotEmpty(odd);
    FirstSome(p[0], odd);
    FirstSome(q[0], odd);
    TextIsJoined(p);
    TextIsJoined(q);
    if p[0].Key? {
      FirstOfKey(p[0]);
      FirstOfKey(q[0]);
      KeyStep(p[0].name, q[0].name, odd, p[1..], q[1..]);
    } else {
      SameFirstIndex(p[0], q[0], Suffixes(p[1..]), Suffixes(q[1..]));
    }
    SuffixesApart(p[1..], q[1..], odd);
    assert p == [p[0]] + p[1..] && q == [q[0]] + q[1..];
  }

  lemma FirstOfKey(step: Step)
    requires step.Key?
    ensures First(step) == step.name
  {
  }

  lemma SameFirstIndex(a: Step, b: Step, rest: string, more: string)
    requires a.Index? && b.Index? && First(a) + rest == First(b) + more
    ensures a == b && rest == more
  {
    hide Decimal;
    SuffixStart(a, rest);
    SuffixStart(b, more);
    SameIndex(a.i, b.i, rest, more);
  }

  lemma SoundNotEmpty(odd: string)
    requires Sound(odd)
    ensures odd != ""
  {
  }

  lemma FirstSome(step: Step, odd: string)
    requires odd != "" && (step.Key? ==> NameOk(step.name, odd))
    ensures First(step) != ""
  {
    hide Decimal;
  }

  /** Two different paths of such names, both starting with one, that have one text. */
  ghost predicate Confused(p: seq<Step>, q: seq<Step>, odd: string) {
    p != q && p != [] && q != [] && p[0].Key? && q[0].Key? && PathOk(p, odd) && PathOk(q, odd) && Text(p) == Text(q)
  }

  /** Among plain names one other confuses no paths exactly when it is not empty and is not itself the text of a path. */
  lemma OddNameIff(odd: string)
    ensures (forall p, q :: !Confused(p, q, odd)) <==> odd != "" && !Spelled(odd)
  {
    hide Text, PathOk;
    if odd != "" && !Spelled(odd) {
      forall p, q
        ensures !Confused(p, q, odd)
      {
        if Confused(p, q, odd) {
          TextsApart(p, q, odd);
        }
      }
    } else {
      var p, q := ConfusedBy(odd);
    }
  }

  /** The name alone against the path it spells, or a step more with an empty name. */
  lemma ConfusedBy(odd: string) returns (p: seq<Step>, q: seq<Step>)
    requires odd == "" || Spelled(odd)
    ensures Confused(p, q, odd) && p[0] != q[0]
    ensures if odd == "" then p == [Key("x")] && q == [Key(""), Key("x")]
            else p == [Key(odd)] && |q| >= 2 && Spells(odd, q)
  {
    hide Decimal, Append;
    if odd == "" {
      p, q := [Key("x")], [Key(""), Key("x")];
      OneStepText("x");
      OneStepText("");
      TextGrows([Key("")], Key("x"));
      assert q == [Key("")] + [Key("x")];
      assert Append("", Key("x")) == "x" by { AppendEmpty("x"); }
    } else {
      p := [Key(odd)];
      q :| |q| >= 2 && Spells(odd, q);
      OneStepText(odd);
      FirstNotEmpty(q[0]);
      TextIsJoined(q);
      SuffixesStart(q[1..]);
    }
  }

  lemma AppendEmpty(name: string)
    ensures Append("", Key(name)) == name
  {
  }

  /** Paths of plain names differ in their text. */
  lemma TextInjective(p: seq<Step>, q: seq<Step>)
    requires PlainPath(p) && PlainPath(q) && Text(p) == Text(q)
    ensures p == q
  {
    hide Decimal, Text, Suffixes;
    TextEmpty(p);
    TextEmpty(q);
    if p != [] {
      FirstNotEmpty(p[0]);
      FirstNotEmpty(q[0]);
      TextIsJoined(p);
      TextIsJoined(q);
      assert First(p[0])[0] == Text(p)[0] && First(q[0])[0] == Text(q)[0];
      TextsApart(p, q, "x");
    }
  }

  lemma TextEmpty(p: seq<Step>)
    requires PlainPath(p)
    ensures Text(p) == "" <==> p == []
  {
    hide Decimal, First;
    if p != [] {
      FirstNotEmpty(p[0]);
      TextIsJoined(p);
    }
  }

  /** Two names, neither empty nor spelled, can still confuse paths between them. */
  lemma TwoOddNames()
    ensures Text([Key("x."), Key("a")]) == Text([Key("x"), Key(".a")]) == "x..a"
    ensures !Spelled("x.") && !Spelled(".a")
  {
    hide Decimal, Reads;
    OneStepText("x.");
    OneStepText("x");
    TextGrows([Key("x.")], Key("a"));
    TextGrows([Key("x")], Key(".a"));
    assert [Key("x."), Key("a")] == [Key("x.")] + [Key("a")] && [Key("x"), Key(".a")] == [Key("x")] + [Key(".a")];
    SpelledIff("x.");
    SpelledIff(".a");
    NeitherReads();
  }

  // ----- the condition read off the name -----------------------------------------------

  predicate IsDecimal(d: string) {
    d != "" && (forall c <- d :: '0' <= c <= '9') && (|d| > 1 ==> d[0] != '0')
  }

  predicate ReadsSteps(s: string)
    decreases |s|
  {
    s == ""
    || (s[0] == '.' && var n := Before(s[1..], '.', '['); n > 0 && ReadsSteps(s[1 + n..]))
    || (s[0] == '[' && var n := Before(s[1..], ']', ']');
        n + 1 < |s| && IsDecimal(s[1..n + 1]) && ReadsSteps(s[n + 2..]))
  }

  /** A plain name followed by steps, each a dot and a plain name or a number in brackets. */
  predicate Reads(s: string) {
    var n := Before(s, '.', '[');
    0 < n < |s| && ReadsSteps(s[n..])
  }

  lemma NeitherReads()
    ensures !Reads("x.") && !Reads(".a")
  {
    var s := "x.";
    assert s[1..] == "." && Before(".", '.', '[') == 0 && Before(s, '.', '[') == 1;
    assert "."[1..] == "" && Before("", '.', '[') == 0;
  }

  lemma {:induction false} BeforeStops(s: string, a: char, b: char)
    ensures var n := Before(s, a, b);
      a !in s[..n] && b !in s[..n] && (n < |s| ==> s[n] == a || s[n] == b)
  {
    if s != "" && s[0] != a && s[0] != b {
      BeforeStops(s[1..], a, b);
      var n := Before(s, a, b);
      assert s[..n] == [s[0]] + s[1..][..n - 1];
    }
  }

  lemma {:induction false} DecimalIs(n: nat)
    ensures IsDecimal(Decimal(n)) && (Decimal(n)[0] == '0' <==> n == 0)
  {
    if n >= 10 {
      DecimalIs(n / 10);
      assert Decimal(n)[0] == Decimal(n / 10)[0];
    }
  }

  lemma {:induction false} DecimalOf(d: string) returns (n: nat)
    requires IsDecimal(d)
    ensures Decimal(n) == d
    decreases |d|
  {
    var front, last := d[..|d| - 1], d[|d| - 1];
    assert last in d;
    var digit := (last - '0') as nat;
    assert d == front + [last] && '0' + digit as char == last;
    if front == "" {
      n := digit;
    } else {
      assert forall c <- front :: c in d;
      var m := DecimalOf(front);
      DecimalIs(m);
      n := 10 * m + digit;
      assert m > 0 && n / 10 == m && n % 10 == digit;
    }
  }

  lemma {:induction false} SuffixesRead(path: seq<Step>)
    requires PlainPath(path)
    ensures ReadsSteps(Suffixes(path))
    decreases |path|
  {
    hide Decimal, IsDecimal, ReadsSteps;
    NothingRead();
    SuffixesStart(path);
    if path != [] {
      var rest := Suffixes(path[1..]);
      SuffixesRead(path[1..]);
      SuffixesStart(path[1..]);
      match path[0]
      case Key(name) => NameRead(name, rest);
      case Index(i) => IndexRead(i, rest);
    }
  }

  lemma NothingRead()
    ensures ReadsSteps("")
  {
  }

  lemma NameRead(name: string, rest: string)
    requires PlainName(name) && ReadsSteps(rest) && (rest == "" || rest[0] == '.' || rest[0] == '[')
    ensures ReadsSteps("." + name + rest)
  {
    var s := "." + name + rest;
    assert s[1..] == name + rest;
    BeforeAppended(name, '.', '[', rest);
    assert s[1 + |name|..] == rest;
  }

  lemma IndexRead(i: nat, rest: string)
    requires ReadsSteps(rest)
    ensures ReadsSteps("[" + Decimal(i) + "]" + rest)
  {
    hide Decimal, IsDecimal;
    var d := Decimal(i);
    var s := "[" + d + "]" + rest;
    assert s[1..] == d + ("]" + rest);
    assert ']' !in d;
    BeforeAppended(d, ']', ']', "]" + rest);
    DecimalIs(i);
    assert s[1..|d| + 1] == d && s[|d| + 2..] == rest;
  }

  lemma {:induction false} StepsRead(s: string) returns (path: seq<Step>)
    requires ReadsSteps(s)
    ensures PlainPath(path) && Suffixes(path) == s
    decreases |s|
  {
    hide Decimal, IsDecimal, ReadsSteps, Suffixes, Suffix, PlainName;
    if s == "" {
      path := [];
      SuffixesStart(path);
    } else {
      var step, rest := StepRead(s);
      var more := StepsRead(rest);
      path := [step] + more;
      assert path[1..] == more;
      SuffixesUnfold(path);
    }
  }

  lemma SuffixesUnfold(path: seq<Step>)
    requires path != []
    ensures Suffixes(path) == Suffix(path[0]) + Suffixes(path[1..])
  {
  }

  lemma StepRead(s: string) returns (step: Step, rest: string)
    requires s != "" && ReadsSteps(s)
    ensures (step.Key? ==> PlainName(step.name)) && s == Suffix(step) + rest && |rest| < |s| && ReadsSteps(rest)
  {
    hide Decimal, IsDecimal, Before;
    if s[0] == '.' {
      var n := Before(s[1..], '.', '[');
      BeforeStops(s[1..], '.', '[');
      step, rest := Key(s[1..][..n]), s[1 + n..];
      assert s == "." + s[1..][..n] + rest;
    } else {
      var n := Before(s[1..], ']', ']');
      BeforeStops(s[1..], ']', ']');
      var i := DecimalOf(s[1..n + 1]);
      step, rest := Index(i), s[n + 2..];
      assert s[1..][n] == s[n + 1];
      assert s == "[" + s[1..n + 1] + "]" + rest;
    }
  }

  lemma SpelledReads(name: string, path: seq<Step>)
    requires |path| >= 2 && Spells(name, path)
    ensures Reads(name)
  {
    hide Decimal, Text, Suffixes, ReadsSteps, Before;
    FirstNotEmpty(path[0]);
    TextIsJoined(path);
    SuffixesStart(path[1..]);
    SuffixesRead(path[1..]);
    var first, rest := path[0].name, Suffixes(path[1..]);
    assert name == first + rest;
    BeforeAppended(first, '.', '[', rest);
    assert name[|first|..] == rest;
  }

  lemma ReadsIsSpelled(name: string)
    requires Reads(name)
    ensures Spelled(name)
  {
    hide Decimal, Text, Suffixes, ReadsSteps, Before;
    var n := Before(name, '.', '[');
    BeforeStops(name, '.', '[');
    var more := StepsRead(name[n..]);
    SuffixesStart(more);
    TextOfKey(name[..n], more);
    assert name == name[..n] + name[n..];
    var path := [Key(name[..n])] + more;
    assert path[1..] == more;
    assert Spells(name, path);
  }

  /** Whether a name is the text of a plain path can be read off its characters. */
  lemma SpelledIff(name: string)
    ensures Spelled(name) <==> Reads(name)
  {
    hide Spells, Reads;
    if Spelled(name) {
      var path: seq<Step> :| |path| >= 2 && Spells(name, path);
      SpelledReads(name, path);
    }
    if Reads(name) {
      ReadsIsSpelled(name);
    }
  }
}
