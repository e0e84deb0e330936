/**
 * nglob.py: the file scan looks for the paths of the plain glob and keeps those that the regular
 * expression accepts. It misses a path that the expression accepts only for collapsible patterns.
 */
module NGlobInclusion {
  import opened NGlobSymbols
  import opened NGlobRegex
  import opened NGlobMeaning
  import opened NGlobGlob
  import opened NGlobShape

  /** A relative path without empty components, with or without a trailing separator. */
  predicate CleanPath(p: string) {
    p != [] && p[0] != '/' && NoDoubleSlash(p)
  }

  function GlobPattern(ts: seq<Token>): seq<Component> {
    Components(Syms(GlobTokens(ts)))
  }

  /** The scan yields the path; it adds a trailing separator to every directory it finds. */
  predicate GlobFinds(ts: seq<Token>, p: string) {
    GlobMatch(GlobPattern(ts), Names(p)) || (EndsInSlash(p) && GlobMatch(GlobPattern(ts), Names(p[..|p| - 1])))
  }

  predicate StarLike(x: Sym) {
    x.Many? || x.Var?
  }

  predicate AllStarLike(xs: seq<Sym>) {
    forall k :: 0 <= k < |xs| ==> StarLike(xs[k])
  }

  /** All of it stands for names that `last` captures too. */
  predicate OnlyNamesOf(c: seq<Sym>, last: seq<Sym>) {
    forall k :: 0 <= k < |c| ==> c[k].Var? && c[k] in last
  }

  /**
   * The last component consists of stars and names only and the code does not ask it to be nonempty,
   * although a component other than `**` comes before it, and every such component can be nonempty when
   * the names of the last one are empty.
   */
  ghost predicate CollapsibleComponents(pattern: seq<Component>) {
    && pattern != [] && LastOf(pattern).Plain? && LastOf(pattern).syms != [] && AllStarLike(LastOf(pattern).syms)
    && (exists i :: 0 <= i < |pattern| - 1 && pattern[i].Plain?)
    && (forall i :: 0 <= i < |pattern| - 1 && pattern[i].Plain? ==> !OnlyNamesOf(pattern[i].syms, LastOf(pattern).syms))
  }

  ghost predicate Collapsible(ts: seq<Token>) {
    CollapsibleComponents(Components(Syms(ts))) && !Guarded(Build(ts).parts)
  }

  // ---- Names of clean paths ----

  lemma {:induction false} NamesOfClean(p: string)
    requires NoDoubleSlash(p)
    ensures forall k :: 1 <= k < |Names(p)| - 1 ==> Names(p)[k] != []
    ensures Names(p)[0] == [] <==> p == [] || p[0] == '/'
    ensures |Names(p)| > 1 ==> (Names(p)[|Names(p)| - 1] == [] <==> EndsInSlash(p))
    ensures |Names(p)| == 1 ==> !EndsInSlash(p)
  {
    if p != [] {
      NamesOfClean(p[1..]);
      assert |p| > 1 ==> p[1..][|p| - 2] == p[|p| - 1];
    }
  }

  lemma CleanIsNonempty(p: string)
    requires CleanPath(p) && !EndsInSlash(p)
    ensures AllNonempty(Names(p))
  {
    NamesOfClean(p);
  }

  lemma {:induction false} NamesOfDirectory(q: string)
    ensures Names(q + ['/']) == Names(q) + [[]]
  {
    if q == [] {
      assert [] + ['/'] == ['/'] && ['/'][1..] == [];
      assert Names(['/']) == [[]] + Names([]);
    } else {
      NamesOfDirectory(q[1..]);
      assert (q + ['/'])[1..] == q[1..] + ['/'];
    }
  }

  lemma CleanDirectory(p: string)
    requires CleanPath(p) && EndsInSlash(p)
    ensures CleanPath(p[..|p| - 1]) && !EndsInSlash(p[..|p| - 1])
    ensures Names(p) == Names(p[..|p| - 1]) + [[]] && AllNonempty(Names(p[..|p| - 1]))
  {
    var q := p[..|p| - 1];
    assert p == q + ['/'];
    if |p| > 1 {
      var a, b := p[|p| - 2], p[|p| - 1];
      assert !(a == '/' && b == '/');
    }
    NamesOfDirectory(q);
    CleanIsNonempty(q);
  }

  // ---- The regular expression does not outrun the glob ----

  lemma {:induction false} ComponentsHaveNoVars(xs: seq<Sym>)
    requires NoVars(xs)
    ensures NoVarsIn(Components(xs))
  {
    if xs != [] {
      assert NoVars(xs[1..]);
      ComponentsHaveNoVars(xs[1..]);
    }
  }

  lemma GlobPatternShape(ts: seq<Token>)
    requires Lexed(ts) && Fits(ts)
    ensures Shaped(Syms(GlobTokens(ts))) && NoVarsIn(GlobPattern(ts))
  {
    GlobTokensShape(ts);
    GlobTokensFit(ts);
    LexedIsShaped(GlobTokens(ts));
    NamelessHasNoVars(GlobTokens(ts));
    ComponentsHaveNoVars(Syms(GlobTokens(ts)));
  }

  lemma GlobReads(ts: seq<Token>, env: Env, p: string)
    requires Lexed(ts) && Fits(ts) && Flat(Syms(ts), env, p)
    ensures Loose(GlobPattern(ts), env, Names(p))
  {
    GlobPatternShape(ts);
    GlobIsWider(ts, env, p);
    ComponentsRead(Syms(GlobTokens(ts)), env, p);
  }

  lemma FoundAsFile(ts: seq<Token>, env: Env, p: string)
    requires Lexed(ts) && Fits(ts) && CleanPath(p) && !EndsInSlash(p) && Flat(Syms(ts), env, p)
    ensures GlobMatch(GlobPattern(ts), Names(p))
  {
    GlobReads(ts, env, p);
    GlobPatternShape(ts);
    CleanIsNonempty(p);
    LooseNonempty(GlobPattern(ts), env, Names(p));
  }

  lemma FoundAsDirectory(ts: seq<Token>, env: Env, p: string)
    requires Lexed(ts) && Fits(ts) && CleanPath(p) && EndsInSlash(p) && Flat(Syms(ts), env, p)
    requires LastOf(GlobPattern(ts)) == Plain([]) || LastOf(GlobPattern(ts)) == AnyDepth
    ensures GlobFinds(ts, p)
  {
    GlobReads(ts, env, p);
    GlobPatternShape(ts);
    CleanDirectory(p);
    if LastOf(GlobPattern(ts)) == Plain([]) {
      LooseDirectory(GlobPattern(ts), env, Names(p[..|p| - 1]));
    } else {
      LooseDepth(GlobPattern(ts), env, Names(p[..|p| - 1]));
    }
  }

  // ---- A last component that matched nothing ----

  lemma {:induction false} LooseLast(pattern: seq<Component>, env: Env, names: seq<string>)
    requires Loose(pattern, env, names) && pattern != [] && LastOf(pattern).Plain?
    ensures names != [] && Flat(LastOf(pattern).syms, env, names[|names| - 1])
    ensures |pattern| == 1 ==> |names| == 1
    decreases |pattern|, |names|
  {
    match pattern[0]
    case Plain(c) =>
      if |pattern| > 1 { LooseLast(pattern[1..], env, names[1..]); }
    case AnyDirs =>
      if Loose(pattern[1..], env, names) { LooseLast(pattern[1..], env, names); }
      else { LooseLast(pattern, env, names[1..]); }
    case AnyDepth =>
  }

  /** Every component but the last one matches some name but the last one. */
  lemma {:induction false} LooseMember(pattern: seq<Component>, env: Env, names: seq<string>, i: nat) returns (j: nat)
    requires Loose(pattern, env, names) && pattern != [] && LastOf(pattern).Plain?
    requires i < |pattern| - 1 && pattern[i].Plain?
    ensures j < |names| - 1 && Flat(pattern[i].syms, env, names[j])
    decreases |pattern|, |names|
  {
    match pattern[0]
    case Plain(c) =>
      LooseLast(pattern[1..], env, names[1..]);
      if i == 0 {
        j := 0;
      } else {
        j := LooseMember(pattern[1..], env, names[1..], i - 1);
        j := j + 1;
      }
    case AnyDirs =>
      if Loose(pattern[1..], env, names) {
        j := LooseMember(pattern[1..], env, names, i - 1);
      } else {
        j := LooseMember(pattern, env, names[1..], i);
        j := j + 1;
      }
    case AnyDepth =>
  }

  /** Only stars and names match the empty string, and only when the names are empty. */
  lemma {:induction false} MatchesNothing(xs: seq<Sym>, env: Env)
    requires Flat(xs, env, []) && forall k :: 0 <= k < |xs| ==> Small(xs[k])
    ensures AllStarLike(xs)
    ensures forall k :: 0 <= k < |xs| && xs[k].Var? ==> xs[k].name in env && env[xs[k].name] == []
  {
    if xs != [] {
      var k := FlatUncons(xs, env, []);
      MatchesNothing(xs[1..], env);
    }
  }

  lemma {:induction false} EmptyNames(c: seq<Sym>, env: Env, name: string)
    requires Flat(c, env, name)
    requires forall k :: 0 <= k < |c| ==> c[k].Var? && (c[k].name in env ==> env[c[k].name] == [])
    ensures name == []
  {
    if c != [] {
      var k := FlatUncons(c, env, name);
      EmptyNames(c[1..], env, name[k..]);
      assert name == name[..k] + name[k..];
    }
  }

  lemma {:induction false} ComponentsAreSmall(xs: seq<Sym>, i: nat)
    requires Shaped(xs) && i < |Components(xs)| && Components(xs)[i].Plain?
    ensures forall k :: 0 <= k < |Components(xs)[i].syms| ==> Small(Components(xs)[i].syms[k])
  {
    if xs != [] && !xs[0].Deep? {
      ShapedTail(xs);
      if xs[0] == Dirs || xs[0] == Ch('/') {
        if i > 0 { ComponentsAreSmall(xs[1..], i - 1); }
      } else {
        FirstIsPlain(xs[1..]);
        ComponentsAreSmall(xs[1..], i);
      }
    }
  }

  /** Where the last component matched nothing, the pattern is collapsible or has nothing but `**` before it. */
  lemma NothingMatched(pattern: seq<Component>, env: Env, names: seq<string>)
    requires Loose(pattern, env, names + [[]]) && AllNonempty(names)
    requires pattern != [] && LastOf(pattern).Plain? && LastOf(pattern).syms != []
    requires forall k :: 0 <= k < |LastOf(pattern).syms| ==> Small(LastOf(pattern).syms[k])
    ensures AllStarLike(LastOf(pattern).syms)
    ensures CollapsibleComponents(pattern) || forall i :: 0 <= i < |pattern| - 1 ==> !pattern[i].Plain?
  {
    var all, l := names + [[]], LastOf(pattern).syms;
    LooseLast(pattern, env, all);
    MatchesNothing(l, env);
    forall i | 0 <= i < |pattern| - 1 && pattern[i].Plain? ensures !OnlyNamesOf(pattern[i].syms, l) {
      var j := LooseMember(pattern, env, all, i);
      assert all[j] == names[j];
      if OnlyNamesOf(pattern[i].syms, l) { EmptyNames(pattern[i].syms, env, names[j]); }
    }
  }

  // ---- Nothing but `**` before the last component ----

  predicate OnlyWild(ts: seq<Token>) {
    forall i :: 0 <= i < |ts| ==> ts[i].RecSlash? || ts[i].Star? || ts[i].Named?
  }

  predicate WildSyms(xs: seq<Sym>) {
    forall i :: 0 <= i < |xs| ==> xs[i] == Dirs || StarLike(xs[i])
  }

  lemma SlashIsPlain(xs: seq<Sym>)
    requires xs != []
    ensures xs[0] == Ch('/') ==> Components(xs)[0].Plain? && |Components(xs)| > 1
  {
  }

  lemma {:induction false} WildComponents(xs: seq<Sym>)
    requires Shaped(xs) && LastOf(Components(xs)).Plain? && AllStarLike(LastOf(Components(xs)).syms)
    requires forall i :: 0 <= i < |Components(xs)| - 1 ==> !Components(xs)[i].Plain?
    ensures WildSyms(xs)
  {
    if xs != [] {
      ShapedTail(xs);
      SlashIsPlain(xs);
      var r := Components(xs[1..]);
      if xs[0] == Dirs {
        assert forall i :: 0 <= i < |r| - 1 ==> r[i] == Components(xs)[i + 1];
        WildComponents(xs[1..]);
      } else if Small(xs[0]) {
        FirstIsPlain(xs[1..]);
        assert Components(xs)[0].Plain? && |r| == 1;
        assert r[0].syms == Components(xs)[0].syms[1..] && Components(xs)[0].syms[0] == xs[0];
        WildComponents(xs[1..]);
      }
    }
  }

  lemma {:induction false} WildTokens(ts: seq<Token>)
    requires Lexed(ts) && WildSyms(Syms(ts))
    ensures OnlyWild(ts)
  {
    if ts != [] {
      var init, t := ts[..|ts| - 1], ts[|ts| - 1];
      assert forall i :: 0 <= i < |Syms(init)| ==> Syms(init)[i] == Syms(ts)[i];
      WildTokens(init);
      LastSym(ts);
    }
  }

  lemma WildJoin(xs: seq<Sym>, ys: seq<Sym>)
    requires WildSyms(xs) && WildSyms(ys)
    ensures WildSyms(xs + ys)
  {
  }

  lemma WildToken(t: Token)
    requires t.RecSlash? || t.Star? || t.Named?
    ensures WildSyms(TokenSyms(Substituted(t)))
  {
  }

  lemma WildInit(ts: seq<Token>)
    requires Lexed(ts) && OnlyWild(ts) && ts != []
    ensures Lexed(ts[..|ts| - 1]) && OnlyWild(ts[..|ts| - 1])
  {
  }

  /** The step of the merging loop adds wild symbols to wild symbols. */
  lemma WildStep(ts: seq<Token>)
    requires Lexed(ts) && ts != []
    requires WildSyms(Syms(GlobTokens(ts[..|ts| - 1]))) && WildSyms(TokenSyms(Substituted(ts[|ts| - 1])))
    ensures WildSyms(Syms(GlobTokens(ts)))
  {
    GlobStepSyms(ts);
    WildJoin(Syms(GlobTokens(ts[..|ts| - 1])), TokenSyms(Substituted(ts[|ts| - 1])));
  }

  lemma {:induction false} WildGlob(ts: seq<Token>)
    requires Lexed(ts) && OnlyWild(ts)
    ensures WildSyms(Syms(GlobTokens(ts)))
  {
    if ts != [] {
      WildInit(ts);
      WildGlob(ts[..|ts| - 1]);
      WildToken(ts[|ts| - 1]);
      WildStep(ts);
    }
  }

  lemma {:induction false} StarsTakeName(xs: seq<Sym>, name: string)
    requires Shaped(xs) && xs != [] && NoSlash(name) && forall i :: 0 <= i < |xs| ==> xs[i] == Many(false)
    ensures Components(xs) == [Plain(xs)] && Flat(xs, map[], name)
  {
    ShapedTail(xs);
    if |xs| == 1 {
      assert xs == [xs[0]] && xs[1..] == [] && [xs[0]] + [] == xs;
      assert Components([]) == [Plain([])] && [Plain([])][1..] == [];
      FlatOne(xs[0], map[], name);
    } else {
      StarsTakeName(xs[1..], name);
      assert name[..0] == [] && name[0..] == name;
      FlatFront(xs, map[], name, 0);
      assert xs == [xs[0]] + xs[1..];
    }
  }

  lemma {:induction false} DirsTakeAllButOne(r: seq<Component>, names: seq<string>)
    requires AllNonempty(names) && names != [] && GlobMatch(r, names[|names| - 1..])
    ensures GlobMatch([AnyDirs] + r, names)
    decreases |names|
  {
    var all := [AnyDirs] + r;
    assert all[1..] == r;
    if |names| == 1 {
      assert names[0..] == names;
    } else {
      assert names[1..][|names| - 2..] == names[|names| - 1..];
      DirsTakeAllButOne(r, names[1..]);
    }
  }

  /** `**` takes all names but the last one, and the stars take that one. */
  lemma {:induction false} WildTakesAll(xs: seq<Sym>, names: seq<string>)
    requires Shaped(xs) && xs != [] && xs[|xs| - 1] == Many(false) && WildSyms(xs) && NoVars(xs)
    requires forall i :: 0 <= i < |xs| && xs[i].Many? ==> !xs[i].some
    requires AllNonempty(names) && names != [] && forall k :: 0 <= k < |names| ==> NoSlash(names[k])
    requires xs[0] != Dirs ==> |names| == 1
    ensures GlobMatch(Components(xs), names)
  {
    ShapedTail(xs);
    if xs[0] == Dirs {
      assert xs[1..][|xs| - 2] == Many(false);
      WildTakesAll(xs[1..], names[|names| - 1..]);
      DirsTakeAllButOne(Components(xs[1..]), names);
    } else {
      StarsFollowStars(xs);
      StarsTakeName(xs, names[0]);
      assert names[1..] == [] && Components(xs)[1..] == [];
    }
  }

  lemma {:induction false} StarsFollowStars(xs: seq<Sym>)
    requires Shaped(xs) && xs != [] && xs[0] != Dirs && WildSyms(xs) && NoVars(xs)
    requires forall i :: 0 <= i < |xs| && xs[i].Many? ==> !xs[i].some
    ensures forall i :: 0 <= i < |xs| ==> xs[i] == Many(false)
  {
    ShapedTail(xs);
    assert xs[0].Many?;
    if |xs| > 1 { StarsFollowStars(xs[1..]); }
  }

  lemma {:induction false} NamesHaveNoSlash(s: string)
    ensures forall k :: 0 <= k < |Names(s)| ==> NoSlash(Names(s)[k])
  {
    if s != [] { NamesHaveNoSlash(s[1..]); }
  }

  lemma {:induction false} StarsAreOptional(ts: seq<Token>)
    ensures forall i :: 0 <= i < |Syms(ts)| && Syms(ts)[i].Many? ==> !Syms(ts)[i].some
  {
    if ts != [] { StarsAreOptional(ts[..|ts| - 1]); }
  }

  lemma GlobEndsInStar(ts: seq<Token>)
    requires Lexed(ts) && ts != [] && (ts[|ts| - 1].Star? || ts[|ts| - 1].Named?)
    ensures Syms(GlobTokens(ts)) != [] && Syms(GlobTokens(ts))[|Syms(GlobTokens(ts))| - 1] == Many(false)
  {
    GlobTokensShape(ts);
    LastSym(GlobTokens(ts));
  }

  lemma GlobHasNoVars(ts: seq<Token>)
    requires Lexed(ts) && Fits(ts)
    ensures NoVars(Syms(GlobTokens(ts)))
  {
    GlobTokensFit(ts);
    NamelessHasNoVars(GlobTokens(ts));
  }

  lemma GlobIsWild(ts: seq<Token>)
    requires Lexed(ts) && Fits(ts) && OnlyWild(ts) && ts != [] && !ts[|ts| - 1].RecSlash?
    ensures var xs := Syms(GlobTokens(ts));
            && Shaped(xs) && xs != [] && xs[|xs| - 1] == Many(false) && WildSyms(xs) && NoVars(xs)
            && forall i :: 0 <= i < |xs| && xs[i].Many? ==> !xs[i].some
  {
    assert ts[|ts| - 1].Star? || ts[|ts| - 1].Named?;
    GlobPatternShape(ts);
    GlobHasNoVars(ts);
    GlobEndsInStar(ts);
    WildGlob(ts);
    StarsAreOptional(GlobTokens(ts));
  }

  lemma FoundByDepth(ts: seq<Token>, env: Env, p: string)
    requires Lexed(ts) && Fits(ts) && OnlyWild(ts) && ts != [] && !ts[|ts| - 1].RecSlash?
    requires CleanPath(p) && EndsInSlash(p) && Flat(Syms(ts), env, p)
    ensures GlobFinds(ts, p)
  {
    var xs, q := Syms(GlobTokens(ts)), p[..|p| - 1];
    GlobIsWild(ts);
    CleanDirectory(p);
    NamesHaveNoSlash(q);
    GlobReads(ts, env, p);
    OneNameForStars(xs, env, Names(p));
    WildTakesAll(xs, Names(q));
  }

  /** Without `**` in front, stars only match a path of one name. */
  lemma OneNameForStars(xs: seq<Sym>, env: Env, names: seq<string>)
    requires Shaped(xs) && xs != [] && WildSyms(xs) && NoVars(xs) && Loose(Components(xs), env, names)
    requires forall i :: 0 <= i < |xs| && xs[i].Many? ==> !xs[i].some
    ensures xs[0] != Dirs ==> |names| == 1
  {
    if xs[0] != Dirs {
      StarsFollowStars(xs);
      StarsTakeName(xs, []);
      LooseLast(Components(xs), env, names);
    }
  }

  predicate EndsInSeparator(t: Token) {
    t.RecSlash? || (t.Text? && EndsInSlash(t.text))
  }

  lemma LastSymKind(ts: seq<Token>)
    requires Lexed(ts) && ts != []
    ensures Syms(ts) != []
    ensures var x, t := Syms(ts)[|Syms(ts)| - 1], ts[|ts| - 1];
            && (EndsInSeparator(t) <==> x == Ch('/') || x == Dirs) && (t.Rec? <==> x.Deep?)
  {
    LastSym(ts);
  }

  /** A pattern ends in a separator, in `**`, or in a component of its own. */
  lemma EndOfPattern(ts: seq<Token>)
    requires Lexed(ts) && ts != [] && Fits(ts)
    ensures var t, c := ts[|ts| - 1], LastOf(Components(Syms(ts)));
            if EndsInSeparator(t) then c == Plain([])
            else if t.Rec? then c == AnyDepth
            else c.Plain? && c.syms != []
  {
    LexedIsShaped(ts);
    LastSymKind(ts);
    ShapedTailEnd(Syms(ts));
    LastComponent(Syms(ts));
  }

  lemma ShapedTailEnd(xs: seq<Sym>)
    requires Shaped(xs) && xs != []
    ensures var x := xs[|xs| - 1]; x == Dirs || x.Deep? || x == Ch('/') || Small(x)
  {
  }

  /** The glob ends like the pattern. */
  lemma EndOfGlob(ts: seq<Token>)
    requires Lexed(ts) && ts != [] && Fits(ts)
    requires EndsInSeparator(ts[|ts| - 1]) || ts[|ts| - 1].Rec?
    ensures LastOf(GlobPattern(ts)) == Plain([]) || LastOf(GlobPattern(ts)) == AnyDepth
  {
    GlobTokensShape(ts);
    GlobTokensFit(ts);
    EndOfPattern(GlobTokens(ts));
  }

  /** A directory whose last component matched nothing: nothing but `**` comes before that component. */
  lemma NothingButDepth(xs: seq<Sym>, env: Env, p: string)
    requires Shaped(xs) && Flat(xs, env, p) && CleanPath(p) && EndsInSlash(p)
    requires LastOf(Components(xs)).Plain? && LastOf(Components(xs)).syms != []
    requires !CollapsibleComponents(Components(xs))
    ensures WildSyms(xs)
  {
    ComponentsRead(xs, env, p);
    CleanDirectory(p);
    ComponentsAreSmall(xs, |Components(xs)| - 1);
    NothingMatched(Components(xs), env, Names(p[..|p| - 1]));
    WildComponents(xs);
  }

  lemma DirectoryIncluded(ts: seq<Token>, env: Env, p: string)
    requires Lexed(ts) && ts != [] && Fits(ts) && CleanPath(p) && EndsInSlash(p) && Reads(ts, env, p)
    requires !Collapsible(ts)
    ensures GlobFinds(ts, p)
  {
    if EndsInSeparator(ts[|ts| - 1]) || ts[|ts| - 1].Rec? {
      EndOfGlob(ts);
      FoundAsDirectory(ts, env, p);
    } else {
      EndOfPattern(ts);
      LexedIsShaped(ts);
      NothingButDepth(Syms(ts), env, p);
      WildTokens(ts);
      FoundByDepth(ts, env, p);
    }
  }

  /** Every path that the regular expression of a pattern accepts is found, unless the pattern is collapsible. */
  lemma Included(ts: seq<Token>, p: string)
    requires Lexed(ts) && ts != [] && Fits(ts) && !Collapsible(ts)
    requires CleanPath(p) && Accepts(RegexParts(ts), p)
    ensures GlobFinds(ts, p)
  {
    var env :| Flat(PartsSyms(RegexParts(ts)), env, p);
    RegexMeaning(ts, env, p);
    if Reads(ts, env, p) {
      if EndsInSlash(p) { DirectoryIncluded(ts, env, p); } else { FoundAsFile(ts, env, p); }
    } else {
      CleanDirectory(p);
      FoundAsFile(ts, env, p[..|p| - 1]);
    }
  }
}
