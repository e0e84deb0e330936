/** nglob.py: concrete patterns for which the two translations, or a name and a star, differ. */
module NGlobExamples {
  import opened Basics
  import opened NGlobSymbols
  import opened NGlobRegex
  import opened NGlobMeaning
  import opened NGlobGlob
  import opened NGlobShape
  import opened NGlobInclusion
  import opened NGlobCollapse
  import opened NGlobNames

  lemma Append(ts: seq<Token>, t: Token)
    ensures Build(ts + [t]) == Step(Build(ts), t)
    ensures GlobTokens(ts + [t]) == GlobStep(GlobTokens(ts), Substituted(t))
    ensures Syms(ts + [t]) == Syms(ts) + TokenSyms(t)
  {
    assert (ts + [t])[..|ts|] == ts;
  }

  lemma AppendTwo(ts: seq<Token>, a: Token, b: Token)
    ensures Build(ts + [a] + [b]) == Step(Step(Build(ts), a), b)
    ensures Syms(ts + [a] + [b]) == Syms(ts) + TokenSyms(a) + TokenSyms(b)
  {
    Append(ts, a);
    Append(ts + [a], b);
  }

  lemma LexedTwo(ts: seq<Token>, a: Token, b: Token)
    requires Lexed(ts) && ts != [] && ts[|ts| - 1].Text? && (a.Star? || a.Named?) && (b.Star? || b.Named?)
    ensures Lexed(ts + [a] + [b])
  {
    LexedAppend(ts, a);
    LexedAppend(ts + [a], b);
  }

  lemma DirAlone(c: char)
    ensures Lexed([Text([c, '/'])]) && Syms([Text([c, '/'])]) == [Ch(c), Ch('/')]
    ensures Build([Text([c, '/'])]) == Builder([Lit([c, '/'])], Some(Text([c, '/'])), {})
  {
    assert [Text([c, '/'])][..0] == [];
    assert Chars([c, '/']) == [Ch(c), Ch('/')];
    assert [] + [Lit([c, '/'])] == [Lit([c, '/'])] && [] + [Ch(c), Ch('/')] == [Ch(c), Ch('/')];
  }

  lemma DirThenTwo(ts: seq<Token>, c: char, a: Token, b: Token)
    requires ts == [Text([c, '/']), a, b] && c != '/' && (a.Star? || a.Named?) && (b.Star? || b.Named?)
    ensures Lexed(ts) && Syms(ts) == [Ch(c), Ch('/')] + TokenSyms(a) + TokenSyms(b)
    ensures Build(ts) == Step(Step(Builder([Lit([c, '/'])], Some(Text([c, '/'])), {}), a), b)
  {
    var one := [Text([c, '/'])];
    DirAlone(c);
    LexedTwo(one, a, b);
    AppendTwo(one, a, b);
    assert ts == one + [a] + [b];
  }

  lemma TwoComponents(xs: seq<Sym>, c: char, l: seq<Sym>)
    requires xs == [Ch(c), Ch('/')] + l && c != '/' && OneComponent(l)
    ensures Components(xs) == [Plain([Ch(c)]), Plain(l)]
  {
    OneComponentIs(l);
    assert xs[1..][1..] == l;
    assert Components(xs[1..]) == [Plain([])] + [Plain(l)];
    assert [Ch(c)] + [] == [Ch(c)] && ([Plain([])] + [Plain(l)])[1..] == [Plain(l)];
  }

  // The pattern d/*${*n} is collapsible: it accepts d/, which the plain glob d/* does not find.
  lemma StarAndNameCollapse(ts: seq<Token>, c: char, n: string)
    requires ts == [Text([c, '/']), Star, Named(n)] && c != '/'
    ensures Lexed(ts) && Collapsible(ts)
  {
    DirThenTwo(ts, c, Star, Named(n));
    var l := [Many(false), Var(n, false)];
    assert Syms(ts) == [Ch(c), Ch('/')] + l;
    TwoComponents(Syms(ts), c, l);
    var pattern := Components(Syms(ts));
    assert pattern[0].Plain? && pattern[0].syms[0] == Ch(c);
    assert Build(ts).parts == [Lit([c, '/']), Stars(false), Group(n, false)];
  }

  lemma StarAndNameAccept(ts: seq<Token>, c: char, n: string)
    requires ts == [Text([c, '/']), Star, Named(n)] && c != '/'
    ensures Accepts(RegexParts(ts), [c, '/'])
  {
    var env: Env, d := map[n := []], [c, '/'];
    DirThenTwo(ts, c, Star, Named(n));
    CharsMatchThemselves(d, env, d);
    assert Chars(d) == [Ch(c), Ch('/')] && d + [] == d;
    FlatJoinOne(Chars(d), Many(false), env, d, []);
    FlatJoinOne(Chars(d) + [Many(false)], Var(n, false), env, d, []);
    assert Build(ts).parts == [Lit(d), Stars(false), Group(n, false)];
    RegexMeaning(ts, env, d);
  }

  lemma GuardedRejects(ts: seq<Token>, env: Env, s: string)
    requires Lexed(ts) && NoDoubleSlash(s) && EndsInSlash(s) && Guarded(Build(ts).parts)
    requires !Flat(Syms(ts), env, s[..|s| - 1])
    ensures !Flat(PartsSyms(RegexParts(ts)), env, s)
  {
    RegexMeaning(ts, env, s);
  }

  lemma TwoStarsMerge(us: seq<Token>, c: char)
    requires us == [Text([c, '/']), Star, Star] && c != '/'
    ensures Lexed(us) && Guarded(Build(us).parts) && Syms(us) == [Ch(c), Ch('/'), Many(false), Many(false)]
  {
    DirThenTwo(us, c, Star, Star);
    assert Build(us).parts == [Lit([c, '/']), Stars(false)];
  }

  lemma TwoStarsReject(us: seq<Token>, c: char, env: Env)
    requires us == [Text([c, '/']), Star, Star] && c != '/'
    ensures !Flat(PartsSyms(RegexParts(us)), env, [c, '/'])
  {
    TwoStarsMerge(us, c);
    TooShort(Syms(us), env, c);
    assert [c, '/'][..1] == [c];
    GuardedRejects(us, env, [c, '/']);
  }

  lemma TooShort(xs: seq<Sym>, env: Env, c: char)
    requires |xs| >= 2 && xs[1] == Ch('/') && xs[0] == Ch(c)
    ensures !Flat(xs, env, [c])
  {
    if Flat(xs, env, [c]) {
      var k := FlatUncons(xs, env, [c]);
    }
  }

  /** The same pattern with a star for the name is not collapsible, so that replacing a name next to a star matters. */
  lemma NeighboursDiffer(ts: seq<Token>, us: seq<Token>, c: char, n: string)
    requires ts == [Text([c, '/']), Star, Named(n)] && us == [Text([c, '/']), Star, Star] && c != '/'
    ensures us == AnonTokens(ts, n) && !Apart(ts)
    ensures Accepts(RegexParts(ts), [c, '/']) && !Accepts(RegexParts(us), [c, '/'])
  {
    assert Clash(ts[1], ts[1 + 1]);
    StarAndNameAccept(ts, c, n);
    if env :| Flat(PartsSyms(RegexParts(us)), env, [c, '/']) { TwoStarsReject(us, c, env); }
  }

  lemma OneText(a: char)
    ensures Lexed([Text([a])]) && Syms([Text([a])]) == [Ch(a)] && GlobTokens([Text([a])]) == [Text([a])]
    ensures Build([Text([a])]) == Builder([Lit([a])], Some(Text([a])), {})
  {
    var one := [Text([a])];
    assert one[..0] == [];
    assert Chars([a]) == [Ch(a)] && Syms([]) == [] && Build([]).parts == [];
    assert [] + [Ch(a)] == [Ch(a)];
    assert [] + [Lit([a])] == [Lit([a])];
  }

  lemma TextClassText(ts: seq<Token>, a: char, regex: set<char>, glob: set<char>, b: char)
    requires ts == [Text([a]), Class(regex, glob), Text([b])]
    ensures Lexed(ts) && Syms(ts) == [Ch(a), In(regex), Ch(b)]
    ensures Build(ts).parts == [Lit([a]), CharClass(regex), Lit([b])]
    ensures GlobTokens(ts) == [Text([a]), Class(glob, glob), Text([b])]
  {
    var one, two := [Text([a])], [Text([a])] + [Class(regex, glob)];
    OneText(a);
    LexedAppend(one, Class(regex, glob));
    Append(one, Class(regex, glob));
    LexedAppend(two, Text([b]));
    Append(two, Text([b]));
    assert Chars([b]) == [Ch(b)] && ts == two + [Text([b])];
  }

  lemma ThreeChars(xs: seq<Sym>, env: Env, p: string, chars: set<char>)
    requires |p| == 3 && xs == [Ch(p[0]), In(chars), Ch(p[2])] && p[1] in chars
    ensures Flat(xs, env, p)
  {
    FlatOne(xs[0], env, [p[0]]);
    FlatJoinOne([xs[0]], xs[1], env, [p[0]], [p[1]]);
    FlatJoinOne([xs[0]] + [xs[1]], xs[2], env, [p[0]] + [p[1]], [p[2]]);
    assert [p[0]] + [p[1]] + [p[2]] == p && [xs[0]] + [xs[1]] + [xs[2]] == xs;
  }

  lemma OneNameOnly(xs: seq<Sym>, names: seq<string>)
    requires OneComponent(xs) && GlobMatch(Components(xs), names)
    ensures |names| == 1
  {
    OneComponentIs(xs);
    assert [Plain(xs)][1..] == [];
  }

  lemma SlashInClass(ts: seq<Token>, a: char, regex: set<char>, glob: set<char>, b: char)
    requires '/' in regex && ts == [Text([a]), Class(regex, glob), Text([b])] && NoDoubleSlash([a, '/', b]) && b != '/'
    ensures Accepts(RegexParts(ts), [a, '/', b])
  {
    TextClassText(ts, a, regex, glob, b);
    ThreeChars(Syms(ts), map[], [a, '/', b], regex);
    RegexMeaning(ts, map[], [a, '/', b]);
  }

  lemma TwoNames(a: char, b: char)
    requires a != '/' && b != '/'
    ensures |Names([a, '/', b])| == 2 && CleanPath([a, '/', b]) && !EndsInSlash([a, '/', b])
  {
    NamesOfPiece([a], ['/', b]);
    NamesOfPiece([b], []);
    assert [a] + ['/', b] == [a, '/', b] && [b] + [] == [b] && ['/', b][1..] == [b];
    assert Names(['/', b]) == [[]] + Names([b]);
  }

  // A class such as [!x] accepts a separator in the regular expression, so that a[!x]b accepts a/b, a
  // path of two components that no pattern of one component finds.
  lemma NegatedClassCrossesSeparator(ts: seq<Token>, a: char, regex: set<char>, glob: set<char>, b: char)
    requires a != '/' && b != '/' && '/' in regex && '/' !in glob && ts == [Text([a]), Class(regex, glob), Text([b])]
    ensures CleanPath([a, '/', b]) && Lexed(ts) && Accepts(RegexParts(ts), [a, '/', b]) && !GlobFinds(ts, [a, '/', b])
  {
    var p := [a, '/', b];
    TextClassText(ts, a, regex, glob, b);
    TextClassText(GlobTokens(ts), a, glob, glob, b);
    TwoNames(a, b);
    SlashInClass(ts, a, regex, glob, b);
    if GlobMatch(GlobPattern(ts), Names(p)) { OneNameOnly(Syms(GlobTokens(ts)), Names(p)); }
  }
}
