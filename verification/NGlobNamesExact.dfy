/**
 * nglob.py:22-30: when replacing names by anonymous stars changes the paths that match. On paths without
 * empty components it does exactly when the stars merge into one complete last component that the names
 * kept apart, because only then the code asks it to be nonempty.
 */
module NGlobNamesExact {
  import opened Basics
  import opened NGlobSymbols
  import opened NGlobRegex
  import opened NGlobMeaning
  import opened NGlobGlob
  import opened NGlobShape
  import opened NGlobInclusion
  import opened NGlobCollapse
  import opened NGlobInside
  import opened NGlobNames

  /** Every one of these names is used at most once. */
  ghost predicate UsedAtMostOnce(ts: seq<Token>, names: set<string>) {
    forall n :: n in names ==> AtMostOnce(ts, n)
  }

  function Replaced(t: Token, names: set<string>): Token {
    if t.Named? && t.name in names then Star else t
  }

  function ReplacedAll(ts: seq<Token>, names: set<string>): (r: seq<Token>)
    ensures |r| == |ts|
  {
    seq(|ts|, i requires 0 <= i < |ts| => Replaced(ts[i], names))
  }

  /** Some substrings for the names make the plain reading match. */
  ghost predicate Matches(ts: seq<Token>, s: string) {
    exists env :: Flat(Syms(ts), env, s)
  }

  // ---- The plain reading does not change ----

  function RawPart(t: Token): Part {
    match t
    case Text(text) => Lit(text)
    case One => NotSlash
    case Star => Stars(false)
    case Rec => Dots(false)
    case RecSlash => OptDirs
    case Class(regex, _) => CharClass(regex)
    case Named(name) => Group(name, false)
  }

  function RawParts(ts: seq<Token>): (r: seq<Part>)
    ensures |r| == |ts|
  {
    seq(|ts|, i requires 0 <= i < |ts| => RawPart(ts[i]))
  }

  lemma RawAppend(init: seq<Token>, t: Token)
    ensures RawParts(init + [t]) == RawParts(init) + [RawPart(t)] && PartSyms(RawPart(t)) == TokenSyms(t)
  {
  }

  lemma {:induction false} RawSyms(ts: seq<Token>)
    ensures PartsSyms(RawParts(ts)) == Syms(ts)
  {
    if ts == [] {
      assert RawParts(ts) == [];
    } else {
      var init, t := ts[..|ts| - 1], ts[|ts| - 1];
      RawSyms(init);
      RawAppend(init, t);
      PartsSymsAppend(RawParts(init), RawPart(t));
      assert ts == init + [t];
    }
  }

  lemma OneNameMatches(ts: seq<Token>, n: string, s: string)
    requires AtMostOnce(ts, n)
    ensures Matches(ts, s) <==> Matches(AnonTokens(ts, n), s)
  {
    RawSyms(ts);
    RawSyms(AnonTokens(ts, n));
    assert RawParts(AnonTokens(ts, n)) == AnonParts(RawParts(ts), n);
    RawMentions(ts, n);
    AnonIsSame(RawParts(ts), n, s);
  }

  lemma RawMentions(ts: seq<Token>, n: string)
    requires AtMostOnce(ts, n)
    ensures MentionedOnce(RawParts(ts), n)
  {
    var ps := RawParts(ts);
    forall j, k | 0 <= j < k < |ps| ensures !(Mentions(ps[j], n) && Mentions(ps[k], n)) {
      assert !(ts[j] == Named(n) && ts[k] == Named(n));
    }
  }

  lemma {:induction false} NamesMatch(ts: seq<Token>, names: set<string>, s: string)
    requires UsedAtMostOnce(ts, names)
    ensures Matches(ts, s) <==> Matches(ReplacedAll(ts, names), s)
    decreases |names|
  {
    if names == {} {
      assert ReplacedAll(ts, names) == ts;
    } else {
      var n := Member(names);
      var us := AnonTokens(ts, n);
      OneNameMatches(ts, n, s);
      forall m | m in names - {n} ensures AtMostOnce(us, m) { assert AtMostOnce(ts, m); }
      NamesMatch(us, names - {n}, s);
      assert ReplacedAll(us, names - {n}) == ReplacedAll(ts, names);
    }
  }

  lemma {:induction false} ReplacedIsLexed(ts: seq<Token>, names: set<string>)
    requires Lexed(ts)
    ensures Lexed(ReplacedAll(ts, names))
  {
    if ts != [] {
      var init := ts[..|ts| - 1];
      ReplacedIsLexed(init, names);
      assert ReplacedAll(ts, names) == ReplacedAll(init, names) + [Replaced(ts[|ts| - 1], names)];
      LexedAppend(ReplacedAll(init, names), Replaced(ts[|ts| - 1], names));
    }
  }

  // ---- What the code sees at the end of a pattern ----

  predicate EndsComponent(ts: seq<Token>) {
    ts != [] && ts[|ts| - 1].Text? && EndsInSlash(ts[|ts| - 1].text)
  }

  /** Stars only, back to a separator. */
  predicate StarRun(ts: seq<Token>) {
    ts != [] && ts[|ts| - 1].Star? && (EndsComponent(ts[..|ts| - 1]) || StarRun(ts[..|ts| - 1]))
  }

  lemma LastWritten(b: Builder, ts: seq<Token>)
    requires Lexed(ts) && ts != [] && b.last == (if |ts| == 1 then None else Some(ts[|ts| - 2]))
    requires !Merges(b.last, ts[|ts| - 1])
    ensures Step(b, ts[|ts| - 1]).parts != []
    ensures var p, t := Step(b, ts[|ts| - 1]).parts[|b.parts|], ts[|ts| - 1];
            && |Step(b, t).parts| == |b.parts| + 1
            && (t.Text? <==> p.Lit?) && (t.Text? ==> p.text == t.text) && (t.Star? <==> p.Stars?)
            && (p.Group? <==> t.Named? && t.name !in b.seen)
  {
    StepAppends(b, ts);
  }

  /** The last part of the expression comes from the last token. */
  lemma {:induction false} LastPart(ts: seq<Token>)
    requires Lexed(ts) && ts != []
    ensures Build(ts).parts != []
    ensures var p, t := Build(ts).parts[|Build(ts).parts| - 1], ts[|ts| - 1];
            && (t.Text? <==> p.Lit?) && (t.Text? ==> p.text == t.text)
            && (t.Star? <==> p.Stars?)
            && (p.Group? <==> t.Named? && t !in ts[..|ts| - 1])
  {
    var init, t := ts[..|ts| - 1], ts[|ts| - 1];
    LastIsRemembered(init);
    if init != [] && Merges(Some(init[|init| - 1]), t) {
      StepAppends(Build(init), ts);
      LastPart(init);
    } else {
      LastWritten(Build(init), ts);
      if t.Named? { SeenNames(init, t.name); }
    }
  }

  lemma StarEnds(ts: seq<Token>)
    requires Lexed(ts) && ts != []
    ensures LastIsStar(Build(ts).parts) <==>
              ts[|ts| - 1].Star? || (ts[|ts| - 1].Named? && ts[|ts| - 1] !in ts[..|ts| - 1])
  {
    LastPart(ts);
  }

  /** The part before the last one, when the last token was not merged. */
  lemma PartBefore(ts: seq<Token>)
    requires Lexed(ts) && |ts| > 1 && !Merges(Some(ts[|ts| - 2]), ts[|ts| - 1])
    ensures |Build(ts).parts| >= 2
    ensures EndsWithSlash(Build(ts).parts[|Build(ts).parts| - 2]) <==> EndsComponent(ts[..|ts| - 1])
  {
    var init := ts[..|ts| - 1];
    LastIsRemembered(init);
    StepAppends(Build(init), ts);
    LastPart(init);
    var parts := Build(ts).parts;
    assert parts[|parts| - 2] == parts[..|Build(init).parts|][|parts| - 2];
  }

  lemma MergedStar(ts: seq<Token>)
    requires Lexed(ts) && |ts| > 1 && ts[|ts| - 1].Star? && ts[|ts| - 2].Star?
    ensures Build(ts).parts == Build(ts[..|ts| - 1]).parts
  {
    LastIsRemembered(ts[..|ts| - 1]);
    StepAppends(Build(ts[..|ts| - 1]), ts);
  }

  lemma UnmergedGuard(ts: seq<Token>)
    requires Lexed(ts) && |ts| > 1 && !Merges(Some(ts[|ts| - 2]), ts[|ts| - 1])
    ensures Guarded(Build(ts).parts) <==>
              && (ts[|ts| - 1].Star? || (ts[|ts| - 1].Named? && ts[|ts| - 1] !in ts[..|ts| - 1]))
              && EndsComponent(ts[..|ts| - 1])
  {
    StarEnds(ts);
    PartBefore(ts);
  }

  lemma RunOfOne(ts: seq<Token>)
    requires |ts| > 1 && !(ts[|ts| - 1].Star? && ts[|ts| - 2].Star?)
    ensures StarRun(ts) <==> ts[|ts| - 1].Star? && EndsComponent(ts[..|ts| - 1])
  {
    assert ts[..|ts| - 1][|ts| - 2] == ts[|ts| - 2];
  }

  lemma RunOfMore(ts: seq<Token>)
    requires |ts| > 1 && ts[|ts| - 1].Star? && ts[|ts| - 2].Star?
    ensures StarRun(ts) <==> StarRun(ts[..|ts| - 1])
    ensures ts[..|ts| - 1][|ts| - 2].Star?
  {
  }

  /** The guard of the code, read off the tokens: a run of stars, or one new name, after a separator. */
  lemma {:induction false} GuardedMeans(ts: seq<Token>)
    requires Lexed(ts) && ts != []
    ensures Guarded(Build(ts).parts) <==>
              || StarRun(ts)
              || (ts[|ts| - 1].Named? && ts[|ts| - 1] !in ts[..|ts| - 1] && EndsComponent(ts[..|ts| - 1]))
  {
    if |ts| == 1 {
      OnePart(ts);
    } else if ts[|ts| - 1].Star? && ts[|ts| - 2].Star? {
      MergedStar(ts);
      RunOfMore(ts);
      GuardedMeans(ts[..|ts| - 1]);
    } else {
      RunOfOne(ts);
      if Merges(Some(ts[|ts| - 2]), ts[|ts| - 1]) { StarEnds(ts); } else { UnmergedGuard(ts); }
    }
  }

  lemma OnePart(ts: seq<Token>)
    requires Lexed(ts) && |ts| == 1
    ensures |Build(ts).parts| == 1
  {
    assert ts[..0] == [];
  }

  // ---- Where the guards differ ----

  /** A run of stars and replaced names, back to a separator. */
  predicate WildRun(ts: seq<Token>, names: set<string>) {
    && ts != [] && Replaced(ts[|ts| - 1], names).Star?
    && (EndsComponent(ts[..|ts| - 1]) || WildRun(ts[..|ts| - 1], names))
  }

  lemma ReplacedInit(ts: seq<Token>, names: set<string>)
    requires ts != []
    ensures ReplacedAll(ts, names)[..|ts| - 1] == ReplacedAll(ts[..|ts| - 1], names)
    ensures EndsComponent(ReplacedAll(ts, names)) <==> EndsComponent(ts)
  {
  }

  lemma {:induction false} ReplacedRun(ts: seq<Token>, names: set<string>)
    ensures StarRun(ReplacedAll(ts, names)) <==> WildRun(ts, names)
  {
    if ts != [] {
      ReplacedInit(ts, names);
      if |ts| > 1 { ReplacedInit(ts[..|ts| - 1], names); }
      ReplacedRun(ts[..|ts| - 1], names);
    }
  }

  lemma NewNameStays(ts: seq<Token>, names: set<string>)
    requires ts != [] && ts[|ts| - 1].Named? && ts[|ts| - 1].name !in names
    ensures ReplacedAll(ts, names)[|ts| - 1] == ts[|ts| - 1]
    ensures ts[|ts| - 1] in ReplacedAll(ts, names)[..|ts| - 1] <==> ts[|ts| - 1] in ts[..|ts| - 1]
  {
    var us, t := ReplacedAll(ts, names), ts[|ts| - 1];
    if t in ts[..|ts| - 1] {
      var k :| 0 <= k < |ts| - 1 && ts[k] == t;
      assert us[..|ts| - 1][k] == t;
    }
    if t in us[..|ts| - 1] {
      var k :| 0 <= k < |ts| - 1 && us[k] == t;
      assert ts[..|ts| - 1][k] == t;
    }
  }

  lemma OnceIsNew(ts: seq<Token>, n: string)
    requires ts != [] && ts[|ts| - 1] == Named(n) && AtMostOnce(ts, n)
    ensures Named(n) !in ts[..|ts| - 1]
  {
  }

  /** Both patterns end in a star, or neither does; the guard can only be gained, and by a run of wildcards. */
  lemma GuardGained(ts: seq<Token>, names: set<string>)
    requires Lexed(ts) && ts != [] && UsedAtMostOnce(ts, names)
    ensures var us := ReplacedAll(ts, names);
            && (LastIsStar(Build(us).parts) <==> LastIsStar(Build(ts).parts))
            && (Guarded(Build(ts).parts) ==> Guarded(Build(us).parts))
            && (Guarded(Build(us).parts) && !Guarded(Build(ts).parts) ==> WildRun(ts, names))
  {
    var us, t := ReplacedAll(ts, names), ts[|ts| - 1];
    ReplacedIsLexed(ts, names);
    StarEnds(ts);
    StarEnds(us);
    GuardedMeans(ts);
    GuardedMeans(us);
    ReplacedRun(ts, names);
    ReplacedInit(ts, names);
    if |ts| > 1 { ReplacedInit(ts[..|ts| - 1], names); }
    if StarRun(ts) { StarRunIsWild(ts, names); }
    if t.Named? {
      if t.name in names { OnceIsNew(ts, t.name); } else { NewNameStays(ts, names); }
    }
  }

  lemma {:induction false} StarRunIsWild(ts: seq<Token>, names: set<string>)
    requires StarRun(ts)
    ensures WildRun(ts, names)
  {
    if !EndsComponent(ts[..|ts| - 1]) { StarRunIsWild(ts[..|ts| - 1], names); }
  }

  // ---- What is accepted, in terms of the plain reading ----

  ghost predicate MatchesGuarded(ts: seq<Token>, s: string) {
    Matches(ts, s) && (Guarded(Build(ts).parts) ==> !EndsInSlash(s))
  }

  lemma AcceptsMeans(ts: seq<Token>, s: string)
    requires Lexed(ts) && NoDoubleSlash(s)
    ensures Accepts(RegexParts(ts), s) <==>
              MatchesGuarded(ts, s)
              || (LastIsStar(Build(ts).parts) && EndsInSlash(s) && MatchesGuarded(ts, s[..|s| - 1]))
  {
    if env :| Flat(PartsSyms(RegexParts(ts)), env, s) { RegexMeaning(ts, env, s); }
    if env :| Flat(Syms(ts), env, s) { RegexMeaning(ts, env, s); }
    if EndsInSlash(s) {
      var shorter := s[..|s| - 1];
      if env :| Flat(Syms(ts), env, shorter) { RegexMeaning(ts, env, s); }
    }
  }

  lemma SameGuardSamePaths(ts: seq<Token>, names: set<string>, s: string)
    requires Lexed(ts) && ts != [] && UsedAtMostOnce(ts, names) && NoDoubleSlash(s)
    requires Guarded(Build(ts).parts) <==> Guarded(Build(ReplacedAll(ts, names)).parts)
    ensures Accepts(RegexParts(ts), s) <==> Accepts(RegexParts(ReplacedAll(ts, names)), s)
  {
    ReplacedIsLexed(ts, names);
    GuardGained(ts, names);
    AcceptsMeans(ts, s);
    AcceptsMeans(ReplacedAll(ts, names), s);
    NamesMatch(ts, names, s);
    if EndsInSlash(s) { NamesMatch(ts, names, s[..|s| - 1]); }
  }

  // ---- A path on which they differ ----

  /** A separator, possibly behind recursive wildcards. */
  predicate BlockedBySlash(xs: seq<Sym>) {
    xs != [] && (xs[0] == Ch('/') || (xs[0] == Dirs && BlockedBySlash(xs[1..])))
  }

  /** Two separators with nothing, or only `**` with its separators, in between. */
  predicate SlashesCollide(xs: seq<Sym>) {
    xs != [] && ((xs[0] == Ch('/') && BlockedBySlash(xs[1..])) || SlashesCollide(xs[1..]))
  }

  predicate WildOnly(xs: seq<Sym>) {
    forall k :: 0 <= k < |xs| ==> StarLike(xs[k]) && !xs[k].some
  }

  /** The tokens from `j` on are the run, and `l` are its symbols. */
  ghost predicate IsRunFrom(ts: seq<Token>, names: set<string>, j: nat, l: seq<Sym>) {
    && j < |ts| && EndsComponent(ts[..j]) && Syms(ts) == Syms(ts[..j]) + l
    && l != [] && WildOnly(l) && NamesFrom(l, names, ts[j..])
  }

  predicate NamesFrom(l: seq<Sym>, names: set<string>, us: seq<Token>) {
    forall k :: 0 <= k < |l| && l[k].Var? ==> l[k].name in names && Named(l[k].name) in us
  }

  lemma WildGrows(l: seq<Sym>, names: set<string>, us: seq<Token>, t: Token)
    requires WildOnly(l) && NamesFrom(l, names, us) && Replaced(t, names).Star?
    ensures WildOnly(l + TokenSyms(t)) && NamesFrom(l + TokenSyms(t), names, us + [t])
  {
    var longer := l + TokenSyms(t);
    assert |TokenSyms(t)| == 1 && (TokenSyms(t)[0].Var? ==> t == Named(TokenSyms(t)[0].name));
    forall k | 0 <= k < |longer| && longer[k].Var?
      ensures longer[k].name in names && Named(longer[k].name) in us + [t]
    {
      if k < |l| { assert longer[k] == l[k]; } else { assert longer[k] == TokenSyms(t)[0] && t in us + [t]; }
    }
  }

  lemma RunStarts(init: seq<Token>, t: Token, names: set<string>)
    requires EndsComponent(init) && Replaced(t, names).Star?
    ensures IsRunFrom(init + [t], names, |init|, TokenSyms(t))
  {
    assert (init + [t])[..|init|] == init && (init + [t])[|init|..] == [t];
    SymsAppend(init, t);
  }

  lemma RunGrows(init: seq<Token>, t: Token, names: set<string>, j: nat, l: seq<Sym>)
    requires IsRunFrom(init, names, j, l) && Replaced(t, names).Star?
    ensures IsRunFrom(init + [t], names, j, l + TokenSyms(t))
  {
    var ts, longer := init + [t], l + TokenSyms(t);
    assert ts[..j] == init[..j] && ts[j..] == init[j..] + [t];
    SymsAppend(init, t);
    Regroup(Syms(ts[..j]), l, TokenSyms(t));
    WildGrows(l, names, init[j..], t);
  }

  lemma {:induction false} RunSplits(ts: seq<Token>, names: set<string>) returns (j: nat, l: seq<Sym>)
    requires WildRun(ts, names)
    ensures IsRunFrom(ts, names, j, l)
  {
    var init, t := ts[..|ts| - 1], ts[|ts| - 1];
    assert ts == init + [t];
    if EndsComponent(init) {
      j, l := |init|, TokenSyms(t);
      RunStarts(init, t, names);
    } else {
      j, l := RunSplits(init, names);
      RunGrows(init, t, names, j, l);
      l := l + TokenSyms(t);
    }
  }

  lemma {:induction false} VarFromToken(ts: seq<Token>, x: Sym)
    requires x.Var? && x in Syms(ts)
    ensures Named(x.name) in ts
  {
    var init, t := ts[..|ts| - 1], ts[|ts| - 1];
    assert ts == init + [t];
    if x in Syms(init) { VarFromToken(init, x); } else { assert x in TokenSyms(t); }
  }

  lemma OnceOnOneSide(ts: seq<Token>, j: nat, n: string)
    requires j <= |ts| && AtMostOnce(ts, n) && Named(n) in ts[j..]
    ensures Named(n) !in ts[..j]
  {
    var k :| 0 <= k < |ts[j..]| && ts[j..][k] == Named(n);
    assert ts[j + k] == Named(n);
  }

  /** The components after one more symbol in front. */
  function Prepended(x: Sym, r: seq<Component>): (p: seq<Component>)
    requires r != []
    ensures |p| >= |r|
  {
    if x == Dirs then [AnyDirs] + r
    else if x == Ch('/') then [Plain([])] + r
    else if r[0].Plain? then [Plain([x] + r[0].syms)] + r[1..]
    else r
  }

  lemma ComponentsPrepended(xs: seq<Sym>)
    requires xs != [] && !xs[0].Deep?
    ensures Components(xs) == Prepended(xs[0], Components(xs[1..]))
  {
  }

  lemma PrependedFront(x: Sym, front: seq<Component>, last: Component)
    requires front != []
    ensures Prepended(x, front + [last]) == Prepended(x, front) + [last]
  {
    var r := front + [last];
    assert r[0] == front[0] && r[1..] == front[1..] + [last];
  }

  lemma SlashThenOne(l: seq<Sym>)
    requires OneComponent(l)
    ensures Prepended(Ch('/'), Components(l)) == [Plain([])] + [Plain(l)]
    ensures Prepended(Ch('/'), Components([])) == [Plain([])] + [Plain([])]
  {
    OneComponentIs(l);
  }

  /** What follows a separator makes up the last component on its own. */
  lemma {:induction false} ComponentsAfterSlash(ys: seq<Sym>, l: seq<Sym>) returns (front: seq<Component>)
    requires Shaped(ys + l) && ys != [] && ys[|ys| - 1] == Ch('/') && OneComponent(l)
    ensures front != [] && Components(ys) == front + [Plain([])] && Components(ys + l) == front + [Plain(l)]
  {
    var xs := ys + l;
    ShapedTail(xs);
    assert xs[0] == ys[0] && !ys[0].Deep?;
    assert xs[1..] == ys[1..] + l;
    ComponentsPrepended(xs);
    ComponentsPrepended(ys);
    if |ys| == 1 {
      assert xs[1..] == l && ys[1..] == [];
      SlashThenOne(l);
      front := [Plain([])];
    } else {
      var shorter := ComponentsAfterSlash(ys[1..], l);
      front := Prepended(ys[0], shorter);
      PrependedFront(ys[0], shorter, Plain([]));
      PrependedFront(ys[0], shorter, Plain(l));
    }
  }

  /** Nothing but `**` strictly between two positions. */
  ghost predicate DirsBetween(pattern: seq<Component>, j: int, i: nat) {
    i <= |pattern| && forall m :: 0 <= m && j < m < i ==> pattern[m] == AnyDirs
  }

  lemma DirsBehind(c: Component, r: seq<Component>, j: int, i: nat)
    requires 0 < i && DirsBetween([c] + r, j, i)
    ensures DirsBetween(r, j - 1, i - 1)
  {
    forall m | 0 <= m && j - 1 < m < i - 1 ensures r[m] == AnyDirs { assert ([c] + r)[m + 1] == r[m]; }
  }

  lemma DirsBehindPlain(a: seq<Component>, r: seq<Component>, j: nat, i: nat)
    requires 0 < |a| == |r| && a[1..] == r[1..] && a[0].Plain? && r[0].Plain? && j < i < |a| && DirsBetween(a, j, i)
    ensures DirsBetween(r, j, i) && a[i] == r[i] && (a[j] != AnyDirs ==> r[j] != AnyDirs)
  {
    forall m | 0 < m < |a| ensures a[m] == r[m] { assert a[1..][m - 1] == a[m] && r[1..][m - 1] == r[m]; }
  }

  /** A separator or `**` in front is a component of its own. */
  lemma OwnComponent(xs: seq<Sym>)
    requires xs != [] && (xs[0] == Ch('/') || xs[0] == Dirs)
    ensures Components(xs) == [if xs[0] == Dirs then AnyDirs else Plain([])] + Components(xs[1..])
  {
  }

  lemma SmallInFront(xs: seq<Sym>)
    requires Shaped(xs) && xs != [] && Small(xs[0])
    ensures Components(xs)[0].Plain? && Components(xs)[0].syms != [] && Components(xs[1..])[0].Plain?
    ensures |Components(xs)| == |Components(xs[1..])| && Components(xs)[1..] == Components(xs[1..])[1..]
  {
    ShapedTail(xs);
    FirstIsPlain(xs[1..]);
  }

  lemma {:induction false} EmptyBehindDirs(xs: seq<Sym>, i: nat)
    requires Shaped(xs) && i < |Components(xs)| - 1 && Components(xs)[i] == Plain([])
    requires DirsBetween(Components(xs), -1, i)
    ensures BlockedBySlash(xs)
  {
    assert xs != [];
    ShapedTail(xs);
    if !xs[0].Deep? {
      if Small(xs[0]) {
        SmallInFront(xs);
      } else if xs[0] == Dirs {
        OwnComponent(xs);
        DirsBehind(AnyDirs, Components(xs[1..]), -1, i);
        EmptyBehindDirs(xs[1..], i - 1);
      }
    }
  }

  lemma AfterFirstSlash(xs: seq<Sym>, i: nat)
    requires Shaped(xs) && !SlashesCollide(xs) && xs != [] && xs[0] == Ch('/')
    requires 0 < i < |Components(xs)| - 1 && DirsBetween(Components(xs), 0, i)
    ensures Components(xs)[i] != Plain([])
  {
    ShapedTail(xs);
    OwnComponent(xs);
    DirsBehind(Plain([]), Components(xs[1..]), 0, i);
    if Components(xs[1..])[i - 1] == Plain([]) { EmptyBehindDirs(xs[1..], i - 1); }
  }

  /** After a component that is not `**`, the next one that is not can only be empty if separators collide. */
  lemma {:induction false} InnerComponents(xs: seq<Sym>, j: nat, i: nat)
    requires Shaped(xs) && !SlashesCollide(xs)
    requires j < i < |Components(xs)| - 1 && Components(xs)[j] != AnyDirs && DirsBetween(Components(xs), j, i)
    ensures Components(xs)[i] != Plain([])
  {
    assert xs != [];
    ShapedTail(xs);
    if !xs[0].Deep? {
      var r := Components(xs[1..]);
      if Small(xs[0]) {
        SmallInFront(xs);
        DirsBehindPlain(Components(xs), r, j, i);
        InnerComponents(xs[1..], j, i);
      } else {
        OwnComponent(xs);
        DirsBehind(Components(xs)[0], r, j, i);
        if j > 0 { InnerComponents(xs[1..], j - 1, i - 1); } else { AfterFirstSlash(xs, i); }
      }
    }
  }

  lemma NearestOther(pattern: seq<Component>, j: nat, i: nat) returns (m: nat)
    requires j < i <= |pattern| && pattern[j] != AnyDirs
    ensures j <= m < i && pattern[m] != AnyDirs && forall k :: m < k < i ==> pattern[k] == AnyDirs
  {
    m := i - 1;
    while pattern[m] == AnyDirs
      invariant j <= m < i && forall k :: m < k < i ==> pattern[k] == AnyDirs
      decreases m
    {
      m := m - 1;
    }
  }

  function CountSlashes(s: string): nat {
    if s == [] then 0 else (if s[0] == '/' then 1 else 0) + CountSlashes(s[1..])
  }

  lemma {:induction false} NamesCount(s: string)
    ensures |Names(s)| == CountSlashes(s) + 1
  {
    if s != [] { NamesCount(s[1..]); }
  }

  lemma {:induction false} CountJoin(a: string, b: string)
    ensures CountSlashes(a + b) == CountSlashes(a) + CountSlashes(b)
  {
    if a == [] {
      assert a + b == b;
    } else {
      CountJoin(a[1..], b);
      assert (a + b)[1..] == a[1..] + b;
    }
  }

  /** A string that matches has at least the separators of the pattern. */
  lemma {:induction false} MatchHasSlashes(xs: seq<Sym>, env: Env, s: string)
    requires Flat(xs, env, s)
    ensures CountSlashes(s) >= Slashes(xs)
  {
    if xs != [] {
      var k := FlatUncons(xs, env, s);
      MatchHasSlashes(xs[1..], env, s[k..]);
      CountJoin(s[..k], s[k..]);
      assert s == s[..k] + s[k..];
      if xs[0] == Ch('/') { assert s[..k] == ['/'] && CountSlashes(['/'][1..]) == 0; }
    }
  }

  lemma SlashAtEnd(ys: seq<Sym>, l: seq<Sym>)
    requires ys != [] && ys[|ys| - 1] == Ch('/')
    ensures Slashes(ys + l) >= 1
  {
    SlashesJoin(ys, l);
    SlashesJoin(ys[..|ys| - 1], [Ch('/')]);
    assert ys == ys[..|ys| - 1] + [Ch('/')];
  }

  /** No name of `c` is one of `l`. */
  predicate NoNameOf(c: seq<Sym>, l: seq<Sym>) {
    forall k :: 0 <= k < |c| && c[k].Var? ==> c[k] !in l
  }

  /** The run makes up the last component, and what comes before it is left alone. */
  lemma RunIsLast(ts: seq<Token>, names: set<string>, j: nat, l: seq<Sym>)
    requires Lexed(ts) && SmallClasses(ts) && IsRunFrom(ts, names, j, l)
    ensures |Components(Syms(ts[..j]))| > 1 && Slashes(Syms(ts)) >= 1
    ensures Components(Syms(ts)) == Components(Syms(ts[..j]))[..|Components(Syms(ts[..j]))| - 1] + [Plain(l)]
  {
    LexedIsShaped(ts);
    LexedPrefix(ts, j);
    LastSym(ts[..j]);
    OneComponentOfWild(l);
    var front := ComponentsAfterSlash(Syms(ts[..j]), l);
    SlashAtEnd(Syms(ts[..j]), l);
  }

  lemma OneComponentOfWild(l: seq<Sym>)
    requires l != [] && WildOnly(l)
    ensures OneComponent(l)
  {
  }

  lemma EarlierNames(ts: seq<Token>, names: set<string>, j: nat, l: seq<Sym>, i: nat)
    requires Lexed(ts) && SmallClasses(ts) && UsedAtMostOnce(ts, names) && IsRunFrom(ts, names, j, l)
    requires i < |Components(Syms(ts[..j]))| && Components(Syms(ts[..j]))[i].Plain?
    ensures NoNameOf(Components(Syms(ts[..j]))[i].syms, l)
  {
    var c := Components(Syms(ts[..j]))[i].syms;
    forall k | 0 <= k < |c| && c[k].Var? ensures c[k] !in l {
      ComponentSyms(Syms(ts[..j]), i, k);
      VarFromToken(ts[..j], c[k]);
      VarsApart(ts, names, j, l, c[k]);
    }
  }

  lemma LastOfRun(ys: seq<Sym>, l: seq<Sym>)
    requires l != []
    ensures (ys + l)[|ys + l| - 1] == l[|l| - 1] && forall k :: 0 <= k < |l| ==> l[k] in ys + l
  {
    forall k | 0 <= k < |l| ensures l[k] in ys + l { assert (ys + l)[|ys| + k] == l[k]; }
  }

  /** What the last component of a run looks like, and what comes before it. */
  lemma RunComponents(ts: seq<Token>, names: set<string>) returns (l: seq<Sym>)
    requires Lexed(ts) && SmallClasses(ts) && UsedAtMostOnce(ts, names) && WildRun(ts, names)
    ensures LastOf(Components(Syms(ts))) == Plain(l) && |Components(Syms(ts))| > 1 && WildOnly(l) && l != []
    ensures forall k :: 0 <= k < |l| ==> l[k] in Syms(ts)
    ensures forall i :: 0 <= i < |Components(Syms(ts))| - 1 && Components(Syms(ts))[i].Plain? ==>
              NoNameOf(Components(Syms(ts))[i].syms, l)
    ensures Small(Syms(ts)[|Syms(ts)| - 1]) && Slashes(Syms(ts)) >= 1
  {
    var j;
    j, l := RunSplits(ts, names);
    RunIsLast(ts, names, j, l);
    LastOfRun(Syms(ts[..j]), l);
    var pattern := Components(Syms(ts));
    forall i | 0 <= i < |pattern| - 1 && pattern[i].Plain? ensures NoNameOf(pattern[i].syms, l) {
      EarlierNames(ts, names, j, l, i);
    }
  }

  lemma VarsApart(ts: seq<Token>, names: set<string>, j: nat, l: seq<Sym>, x: Sym)
    requires UsedAtMostOnce(ts, names) && IsRunFrom(ts, names, j, l) && x.Var? && Named(x.name) in ts[..j]
    ensures x !in l
  {
    if x in l { OnceOnOneSide(ts, j, x.name); }
  }

  lemma {:induction false} LexedPrefix(ts: seq<Token>, j: nat)
    requires Lexed(ts) && j <= |ts|
    ensures Lexed(ts[..j])
  {
    if j == |ts| {
      assert ts[..j] == ts;
    } else {
      LexedPrefix(ts[..|ts| - 1], j);
      assert ts[..|ts| - 1][..j] == ts[..j];
    }
  }

  /** Only the first component that is not `**`, and the last one, may have an empty piece. */
  ghost predicate InnerPiecesNonempty(pattern: seq<Component>, env: Env)
    requires FeasibleComponents(pattern)
  {
    forall j, i :: 0 <= j < i < |pattern| - 1 && pattern[j] != AnyDirs && pattern[i].Plain? ==>
      NGlobCollapse.Pieces(pattern[i].syms, env) != []
  }

  /** The names of the witness, of which only the first may be empty besides the last. */
  lemma {:induction false} InnerNames(pattern: seq<Component>, env: Env, k: nat)
    requires FeasibleComponents(pattern) && InnerPiecesNonempty(pattern, env)
    requires 0 < k < |WitnessNames(pattern, env)| - 1
    ensures WitnessNames(pattern, env)[k] != []
  {
    var tail := pattern[1..];
    assert forall i :: 0 <= i < |tail| ==> tail[i] == pattern[i + 1];
    if pattern[0].Plain? {
      forall i | 0 <= i < |tail| - 1 && tail[i].Plain? ensures NGlobCollapse.Pieces(tail[i].syms, env) != [] {
        assert pattern[0] != AnyDirs && pattern[i + 1].Plain?;
      }
      WitnessNamesNonempty(tail, env, k - 1);
    } else {
      forall j, i | 0 <= j < i < |tail| - 1 && tail[j] != AnyDirs && tail[i].Plain?
        ensures NGlobCollapse.Pieces(tail[i].syms, env) != []
      {
        assert pattern[j + 1] != AnyDirs && pattern[i + 1].Plain?;
      }
      InnerNames(tail, env, k);
    }
  }

  lemma NotOnlyNames(c: seq<Sym>, l: seq<Sym>)
    requires c != [] && NoNameOf(c, l)
    ensures !OnlyNamesOf(c, l)
  {
    assert c[0].Var? ==> c[0] !in l;
  }

  lemma InnerPieces(ts: seq<Token>, l: seq<Sym>, j: nat, i: nat)
    requires Lexed(ts) && SmallClasses(ts) && Feasible(ts) && !SlashesCollide(Syms(ts))
    requires j < i < |Components(Syms(ts))| - 1 && Components(Syms(ts))[j] != AnyDirs
    requires Components(Syms(ts))[i].Plain? && NoNameOf(Components(Syms(ts))[i].syms, l)
    ensures FeasibleSyms(Components(Syms(ts))[i].syms)
    ensures NGlobCollapse.Pieces(Components(Syms(ts))[i].syms, WitnessEnv(Syms(ts), l)) != []
  {
    var xs := Syms(ts);
    var c := Components(xs)[i].syms;
    FeasibleTokens(ts);
    ComponentsFeasible(xs);
    LexedIsShaped(ts);
    VarsOfTokens(ts);
    var m := NearestOther(Components(xs), j, i);
    InnerComponents(xs, m, i);
    ComponentsAreSmall(xs, i);
    forall k | 0 <= k < |c| ensures c[k] in xs { ComponentSyms(xs, i, k); }
    NotOnlyNames(c, l);
    PiecesNonempty(c, xs, l);
  }

  /** A path that matches with an empty last component, with no more separators than the pattern. */
  lemma DirectoryWitness(ts: seq<Token>, names: set<string>) returns (s: string)
    requires Lexed(ts) && SmallClasses(ts) && Feasible(ts) && !SlashesCollide(Syms(ts))
    requires UsedAtMostOnce(ts, names) && WildRun(ts, names)
    ensures NoDoubleSlash(s) && EndsInSlash(s) && Matches(ts, s) && CountSlashes(s) == Slashes(Syms(ts))
  {
    var xs := Syms(ts);
    var l := RunComponents(ts, names);
    var env := WitnessEnv(xs, l);
    LexedIsShaped(ts);
    FeasibleTokens(ts);
    ComponentsFeasible(xs);
    VarsOfTokens(ts);
    StarsAreOptional(ts);
    WitnessEnvFits(xs, l);
    LastMatchesNothing(xs, l);
    s := Witness(xs, env);
    WitnessMatches(xs, env);
    WitnessHasNames(xs, env);
    WitnessIsDirectory(ts, l, s);
  }

  lemma WitnessIsDirectory(ts: seq<Token>, l: seq<Sym>, s: string)
    requires Lexed(ts) && SmallClasses(ts) && Feasible(ts) && !SlashesCollide(Syms(ts))
    requires FeasibleComponents(Components(Syms(ts))) && |Components(Syms(ts))| > 1
    requires LastOf(Components(Syms(ts))).Plain? && Small(Syms(ts)[|Syms(ts)| - 1])
    requires forall i :: 0 <= i < |Components(Syms(ts))| - 1 && Components(Syms(ts))[i].Plain? ==>
               NoNameOf(Components(Syms(ts))[i].syms, l)
    requires Names(s) == WitnessNames(Components(Syms(ts)), WitnessEnv(Syms(ts), l)) && Slashes(Syms(ts)) >= 1
    ensures NoDoubleSlash(s) && EndsInSlash(s) && CountSlashes(s) == Slashes(Syms(ts))
  {
    var pattern, env := Components(Syms(ts)), WitnessEnv(Syms(ts), l);
    LexedIsShaped(ts);
    WitnessNamesCount(pattern, env);
    PlainPerSlash(Syms(ts));
    NamesCount(s);
    forall j, i | 0 <= j < i < |pattern| - 1 && pattern[j] != AnyDirs && pattern[i].Plain?
      ensures NGlobCollapse.Pieces(pattern[i].syms, env) != []
    {
      InnerPieces(ts, l, j, i);
    }
    forall k | 0 < k < |Names(s)| - 1 ensures Names(s)[k] != [] { InnerNames(pattern, env, k); }
    CleanFromNames(s);
    NamesOfClean(s);
  }

  lemma SlashDropped(s: string)
    requires EndsInSlash(s)
    ensures CountSlashes(s) == CountSlashes(s[..|s| - 1]) + 1
  {
    assert s == s[..|s| - 1] + ['/'];
    CountJoin(s[..|s| - 1], ['/']);
    assert CountSlashes(['/'][1..]) == 0;
  }

  lemma ShorterDoesNotMatch(ts: seq<Token>, s: string)
    requires EndsInSlash(s) && CountSlashes(s) == Slashes(Syms(ts))
    ensures !Matches(ts, s[..|s| - 1])
  {
    var shorter := s[..|s| - 1];
    SlashDropped(s);
    if env :| Flat(Syms(ts), env, shorter) { MatchHasSlashes(Syms(ts), env, shorter); }
  }

  // ---- The same pattern with its classes kept from the separator ----

  lemma OnceInside(ts: seq<Token>, names: set<string>)
    requires UsedAtMostOnce(ts, names)
    ensures UsedAtMostOnce(WithoutSlash(ts), names)
  {
    var us := WithoutSlash(ts);
    forall n | n in names ensures AtMostOnce(us, n) {
      assert AtMostOnce(ts, n);
      forall j, k | 0 <= j < k < |us| ensures !(us[j] == Named(n) && us[k] == Named(n)) {
        assert us[j] == Inside(ts[j]) && us[k] == Inside(ts[k]);
      }
    }
  }

  lemma {:induction false} WildRunInside(ts: seq<Token>, names: set<string>)
    requires WildRun(ts, names)
    ensures WildRun(WithoutSlash(ts), names)
  {
    WithoutSlashInit(ts);
    var init := ts[..|ts| - 1];
    if EndsComponent(init) { WithoutSlashInit(init); } else { WildRunInside(init, names); }
  }

  lemma {:induction false} BlockedInside(xs: seq<Sym>)
    ensures BlockedBySlash(InsideSyms(xs)) <==> BlockedBySlash(xs)
    ensures SlashesCollide(InsideSyms(xs)) <==> SlashesCollide(xs)
  {
    if xs != [] {
      assert InsideSyms(xs)[0] == InsideSym(xs[0]) && InsideSyms(xs)[1..] == InsideSyms(xs[1..]);
      BlockedInside(xs[1..]);
    }
  }

  lemma {:induction false} SlashesInside(xs: seq<Sym>)
    ensures Slashes(InsideSyms(xs)) == Slashes(xs)
  {
    if xs != [] {
      SlashesInside(xs[1..]);
      assert InsideSyms(xs)[1..] == InsideSyms(xs[1..]);
    }
  }

  /** A path that matches with an empty last component, and does not match without its trailing separator. */
  lemma DifferingDirectory(ts: seq<Token>, names: set<string>) returns (s: string)
    requires Lexed(ts) && Feasible(WithoutSlash(ts)) && !SlashesCollide(Syms(ts))
    requires UsedAtMostOnce(ts, names) && WildRun(ts, names)
    ensures NoDoubleSlash(s) && EndsInSlash(s) && Matches(ts, s) && !Matches(ts, s[..|s| - 1])
  {
    LexedInside(ts);
    InsideIsSmall(ts);
    SymsInside(ts);
    BlockedInside(Syms(ts));
    SlashesInside(Syms(ts));
    OnceInside(ts, names);
    WildRunInside(ts, names);
    s := DirectoryWitness(WithoutSlash(ts), names);
    var env :| Flat(Syms(WithoutSlash(ts)), env, s);
    InsideAccepts(Syms(ts), env, s);
    ShorterDoesNotMatch(ts, s);
  }

  // ---- Separators that collide ----

  lemma {:induction false} BlockedStarts(xs: seq<Sym>, env: Env, s: string)
    requires BlockedBySlash(xs) && Flat(xs, env, s)
    ensures StartsInSlash(s) || !NoDoubleSlash(s)
  {
    var k := FlatUncons(xs, env, s);
    if xs[0] == Dirs {
      BlockedStarts(xs[1..], env, s[k..]);
      if k == 0 { assert s[0..] == s; } else { DoubledAt(s, k); }
    } else {
      assert s[..k][0] == s[0];
    }
  }

  lemma DoubledAt(s: string, k: nat)
    requires 0 < k <= |s| && s[k - 1] == '/' && (StartsInSlash(s[k..]) || !NoDoubleSlash(s[k..]))
    ensures !NoDoubleSlash(s)
  {
    if StartsInSlash(s[k..]) {
      assert s[k - 1] == '/' && s[k - 1 + 1] == '/';
    } else {
      DoubledBehind(s, k);
    }
  }

  lemma DoubledBehind(s: string, k: nat)
    requires k <= |s| && !NoDoubleSlash(s[k..])
    ensures !NoDoubleSlash(s)
  {
    var t := s[k..];
    var m :| 0 <= m < |t| - 1 && t[m] == '/' && t[m + 1] == '/';
    assert s[k + m] == '/' && s[k + m + 1] == '/';
  }

  lemma {:induction false} CollidingIsDoubled(xs: seq<Sym>, env: Env, s: string)
    requires SlashesCollide(xs) && Flat(xs, env, s)
    ensures !NoDoubleSlash(s)
  {
    var k := FlatUncons(xs, env, s);
    if xs[0] == Ch('/') && BlockedBySlash(xs[1..]) {
      BlockedStarts(xs[1..], env, s[k..]);
      assert s[..k] == ['/'];
      DoubledAt(s, k);
    } else {
      CollidingIsDoubled(xs[1..], env, s[k..]);
      DoubledBehind(s, k);
    }
  }

  lemma CollidingNeverMatches(ts: seq<Token>, s: string)
    requires SlashesCollide(Syms(ts)) && NoDoubleSlash(s)
    ensures !Matches(ts, s)
  {
    if env :| Flat(Syms(ts), env, s) { CollidingIsDoubled(Syms(ts), env, s); }
  }

  lemma CollidingNeverAccepts(ts: seq<Token>, names: set<string>, s: string)
    requires Lexed(ts) && UsedAtMostOnce(ts, names) && SlashesCollide(Syms(ts)) && NoDoubleSlash(s)
    ensures !Accepts(RegexParts(ts), s) && !Accepts(RegexParts(ReplacedAll(ts, names)), s)
  {
    ReplacedIsLexed(ts, names);
    AcceptsMeans(ts, s);
    AcceptsMeans(ReplacedAll(ts, names), s);
    CollidingNeverMatches(ts, s);
    NamesMatch(ts, names, s);
    if EndsInSlash(s) {
      CollidingNeverMatches(ts, s[..|s| - 1]);
      NamesMatch(ts, names, s[..|s| - 1]);
    }
  }

  lemma GainedGuardDiffers(ts: seq<Token>, names: set<string>) returns (s: string)
    requires Lexed(ts) && ts != [] && Feasible(WithoutSlash(ts)) && !SlashesCollide(Syms(ts)) && UsedAtMostOnce(ts, names)
    requires Guarded(Build(ReplacedAll(ts, names)).parts) && !Guarded(Build(ts).parts)
    ensures NoDoubleSlash(s) && Accepts(RegexParts(ts), s) && !Accepts(RegexParts(ReplacedAll(ts, names)), s)
  {
    GuardGained(ts, names);
    s := DifferingDirectory(ts, names);
    ReplacedIsLexed(ts, names);
    AcceptsMeans(ts, s);
    AcceptsMeans(ReplacedAll(ts, names), s);
    NamesMatch(ts, names, s[..|s| - 1]);
  }

  /**
   * Replacing any names that are used at most once by stars leaves the accepted strings without empty
   * components unchanged if and only if separators collide, so that there are none, or it does not change
   * whether the code guards the last component.
   */
  lemma NamesAreStarsIff(ts: seq<Token>, names: set<string>)
    requires Lexed(ts) && ts != [] && Feasible(WithoutSlash(ts)) && UsedAtMostOnce(ts, names)
    ensures (forall s :: NoDoubleSlash(s) ==>
               (Accepts(RegexParts(ts), s) <==> Accepts(RegexParts(ReplacedAll(ts, names)), s)))
            <==> SlashesCollide(Syms(ts))
                 || (Guarded(Build(ts).parts) <==> Guarded(Build(ReplacedAll(ts, names)).parts))
  {
    GuardGained(ts, names);
    if SlashesCollide(Syms(ts)) {
      forall s | NoDoubleSlash(s)
        ensures Accepts(RegexParts(ts), s) <==> Accepts(RegexParts(ReplacedAll(ts, names)), s)
      {
        CollidingNeverAccepts(ts, names, s);
      }
    } else if Guarded(Build(ts).parts) <==> Guarded(Build(ReplacedAll(ts, names)).parts) {
      forall s | NoDoubleSlash(s)
        ensures Accepts(RegexParts(ts), s) <==> Accepts(RegexParts(ReplacedAll(ts, names)), s)
      {
        SameGuardSamePaths(ts, names, s);
      }
    } else {
      var s := GainedGuardDiffers(ts, names);
    }
  }
}
