/**
 * nglob.py:475: a negated class of the regular expression accepts a separator, the class of the glob never
 * does. The scan finds what the expression accepts without making use of that; in a pattern without `**`
 * it finds no other file.
 */
module NGlobClasses {
  import opened NGlobSymbols
  import opened NGlobRegex
  import opened NGlobMeaning
  import opened NGlobGlob
  import opened NGlobShape
  import opened NGlobInclusion
  import opened NGlobCollapse
  import opened NGlobInside
  import opened NGlobNamesExact

  /** Apart from the separator, no class of the expression is wider than the glob's. */
  ghost predicate GlobFits(ts: seq<Token>) {
    forall i :: 0 <= i < |ts| && ts[i].Class? ==> '/' !in ts[i].glob && ts[i].regex - {'/'} <= ts[i].glob
  }

  /** The glob does not look at the translation of the classes. */
  lemma {:induction false} SameGlob(ts: seq<Token>)
    ensures GlobTokens(WithoutSlash(ts)) == GlobTokens(ts)
  {
    if ts != [] {
      SameGlob(ts[..|ts| - 1]);
      WithoutSlashInit(ts);
    }
  }

  // ---- What is accepted without a class that stands for a separator ----

  /** A class that stands for a separator adds one to those of the pattern. */
  lemma {:induction false} SeparatorsAdded(xs: seq<Sym>, env: Env, s: string)
    requires Flat(xs, env, s)
    ensures Flat(InsideSyms(xs), env, s) || CountSlashes(s) > Slashes(xs)
  {
    if xs != [] {
      var k := FlatUncons(xs, env, s);
      SeparatorsAdded(xs[1..], env, s[k..]);
      MatchHasSlashes(xs[1..], env, s[k..]);
      PieceSlashes(xs[0], env, s[..k]);
      CountJoin(s[..k], s[k..]);
      assert s == s[..k] + s[k..];
      assert InsideSyms(xs)[0] == InsideSym(xs[0]) && InsideSyms(xs)[1..] == InsideSyms(xs[1..]);
      if SymMatch(InsideSym(xs[0]), env, s[..k]) && Flat(InsideSyms(xs[1..]), env, s[k..]) {
        FlatFront(InsideSyms(xs), env, s, k);
      }
    }
  }

  lemma PieceSlashes(x: Sym, env: Env, s: string)
    requires SymMatch(x, env, s)
    ensures x == Ch('/') ==> CountSlashes(s) == 1
    ensures !SymMatch(InsideSym(x), env, s) ==> x != Ch('/') && CountSlashes(s) == 1
  {
    if s == ['/'] { assert CountSlashes(s[1..]) == 0; }
  }

  // ---- Patterns without `**` ----

  predicate NoRecursion(ts: seq<Token>) {
    forall i :: 0 <= i < |ts| ==> !ts[i].Rec? && !ts[i].RecSlash?
  }

  lemma {:induction false} GlobStaysFlat(ts: seq<Token>)
    requires NoRecursion(ts)
    ensures NoRecursion(GlobTokens(ts))
  {
    if ts != [] {
      assert NoRecursion(ts[..|ts| - 1]) && !ts[|ts| - 1].Rec? && !ts[|ts| - 1].RecSlash?;
      GlobStaysFlat(ts[..|ts| - 1]);
    }
  }

  predicate FlatSyms(xs: seq<Sym>) {
    forall k :: 0 <= k < |xs| ==> !xs[k].Dirs? && !xs[k].Deep?
  }

  lemma {:induction false} SymsStayFlat(ts: seq<Token>)
    requires NoRecursion(ts)
    ensures FlatSyms(Syms(ts))
  {
    if ts != [] {
      assert !ts[|ts| - 1].Rec? && !ts[|ts| - 1].RecSlash?;
      SymsStayFlat(ts[..|ts| - 1]);
    }
  }

  predicate AllPlain(pattern: seq<Component>) {
    forall i :: 0 <= i < |pattern| ==> pattern[i].Plain?
  }

  lemma {:induction false} FlatIsPlain(xs: seq<Sym>)
    requires FlatSyms(xs)
    ensures AllPlain(Components(xs))
  {
    if xs != [] {
      assert FlatSyms(xs[1..]) && !xs[0].Dirs? && !xs[0].Deep?;
      FlatIsPlain(xs[1..]);
    }
  }

  lemma {:induction false} OneNameEach(pattern: seq<Component>, names: seq<string>)
    requires AllPlain(pattern) && GlobMatch(pattern, names)
    ensures |names| == PlainCount(pattern)
  {
    if pattern != [] {
      assert pattern[0].Plain?;
      OneNameEach(pattern[1..], names[1..]);
    }
  }

  /** A pattern without `**` only finds files with as many separators as it has itself. */
  lemma FoundHasSlashes(ts: seq<Token>, p: string)
    requires Lexed(ts) && ts != [] && Fits(ts) && NoRecursion(ts) && GlobMatch(GlobPattern(ts), Names(p))
    ensures CountSlashes(p) == Slashes(Syms(ts))
  {
    GlobTokensShape(ts);
    GlobTokensFit(ts);
    GlobStaysFlat(ts);
    SymsStayFlat(GlobTokens(ts));
    FlatIsPlain(Syms(GlobTokens(ts)));
    OneNameEach(GlobPattern(ts), Names(p));
    OneMoreThanSlashes(GlobTokens(ts));
    MergingKeepsSlashes(ts);
    NamesCount(p);
  }

  lemma FitsInside(ts: seq<Token>)
    requires GlobFits(ts)
    ensures Fits(WithoutSlash(ts))
  {
    var us := WithoutSlash(ts);
    forall i | 0 <= i < |us| && us[i].Class? ensures '/' !in us[i].glob && us[i].regex <= us[i].glob {
      assert us[i] == Inside(ts[i]);
    }
  }

  lemma NoRecursionInside(ts: seq<Token>)
    requires NoRecursion(ts)
    ensures NoRecursion(WithoutSlash(ts))
  {
    var us := WithoutSlash(ts);
    forall i | 0 <= i < |us| ensures !us[i].Rec? && !us[i].RecSlash? { assert us[i] == Inside(ts[i]); }
  }

  lemma WithoutSlashKeeps(ts: seq<Token>)
    requires Lexed(ts) && ts != [] && GlobFits(ts)
    ensures Lexed(WithoutSlash(ts)) && Fits(WithoutSlash(ts)) && GlobPattern(WithoutSlash(ts)) == GlobPattern(ts)
    ensures Slashes(Syms(WithoutSlash(ts))) == Slashes(Syms(ts))
  {
    LexedInside(ts);
    FitsInside(ts);
    SameGlob(ts);
    SymsInside(ts);
    SlashesInside(Syms(ts));
  }

  lemma FoundIsInside(ts: seq<Token>, p: string)
    requires Lexed(ts) && ts != [] && GlobFits(ts) && NoRecursion(ts)
    requires CleanPath(p) && !EndsInSlash(p) && Accepts(RegexParts(ts), p) && GlobFinds(ts, p)
    ensures Accepts(RegexParts(WithoutSlash(ts)), p)
  {
    WithoutSlashKeeps(ts);
    NoRecursionInside(ts);
    FoundHasSlashes(WithoutSlash(ts), p);
    var env :| Flat(PartsSyms(RegexParts(ts)), env, p);
    RegexMeaning(ts, env, p);
    SeparatorsAdded(Syms(ts), env, p);
    SymsInside(ts);
    RegexMeaning(WithoutSlash(ts), env, p);
  }

  lemma InsideIsFound(ts: seq<Token>, p: string)
    requires Lexed(ts) && ts != [] && GlobFits(ts)
    requires CleanPath(p) && !EndsInSlash(p) && Accepts(RegexParts(WithoutSlash(ts)), p)
    ensures GlobFinds(ts, p)
  {
    WithoutSlashKeeps(ts);
    var env :| Flat(PartsSyms(RegexParts(WithoutSlash(ts))), env, p);
    RegexMeaning(WithoutSlash(ts), env, p);
    FoundAsFile(WithoutSlash(ts), env, p);
  }

  /**
   * For any classes: the scan of a pattern without `**` finds a file that the expression accepts if and
   * only if the expression accepts it without a class that stands for a separator.
   */
  lemma FileFoundIff(ts: seq<Token>, p: string)
    requires Lexed(ts) && ts != [] && GlobFits(ts) && NoRecursion(ts)
    requires CleanPath(p) && !EndsInSlash(p) && Accepts(RegexParts(ts), p)
    ensures GlobFinds(ts, p) <==> Accepts(RegexParts(WithoutSlash(ts)), p)
  {
    if GlobFinds(ts, p) { FoundIsInside(ts, p); }
    if Accepts(RegexParts(WithoutSlash(ts)), p) { InsideIsFound(ts, p); }
  }

  // ---- Whether a pattern is collapsible does not depend on its classes ----

  function InsideComponent(c: Component): Component {
    if c.Plain? then Plain(InsideSyms(c.syms)) else c
  }

  function InsideComponents(pattern: seq<Component>): (r: seq<Component>)
    ensures |r| == |pattern|
  {
    seq(|pattern|, i requires 0 <= i < |pattern| => InsideComponent(pattern[i]))
  }

  lemma InsideLonger(x: Sym, c: seq<Sym>)
    ensures InsideSyms([x] + c) == [InsideSym(x)] + InsideSyms(c)
  {
  }

  lemma InsideFront(c: Component, r: seq<Component>)
    ensures InsideComponents([c] + r) == [InsideComponent(c)] + InsideComponents(r)
  {
  }

  lemma PrependedInside(x: Sym, r: seq<Component>)
    requires r != []
    ensures InsideComponents(Prepended(x, r)) == Prepended(InsideSym(x), InsideComponents(r))
  {
    if x == Dirs {
      InsideFront(AnyDirs, r);
    } else if x == Ch('/') {
      InsideFront(Plain([]), r);
      assert InsideSyms([]) == [];
    } else if r[0].Plain? {
      InsideLonger(x, r[0].syms);
      InsideFront(Plain([x] + r[0].syms), r[1..]);
      assert InsideComponents(r)[1..] == InsideComponents(r[1..]);
    }
  }

  lemma {:induction false} ComponentsInside(xs: seq<Sym>)
    ensures Components(InsideSyms(xs)) == InsideComponents(Components(xs))
  {
    if xs == [] {
      assert InsideSyms([]) == [];
    } else {
      var ys := InsideSyms(xs);
      assert ys[0] == InsideSym(xs[0]) && ys[1..] == InsideSyms(xs[1..]);
      if !xs[0].Deep? {
        ComponentsInside(xs[1..]);
        ComponentsPrepended(xs);
        ComponentsPrepended(ys);
        PrependedInside(xs[0], Components(xs[1..]));
      }
    }
  }

  lemma StarLikeInside(c: seq<Sym>)
    ensures AllStarLike(InsideSyms(c)) <==> AllStarLike(c)
  {
    assert forall k :: 0 <= k < |c| ==> (StarLike(InsideSyms(c)[k]) <==> StarLike(c[k]));
  }

  lemma VarInside(x: Sym, l: seq<Sym>)
    requires x.Var?
    ensures x in InsideSyms(l) <==> x in l
  {
    if x in l {
      var k :| 0 <= k < |l| && l[k] == x;
      assert InsideSyms(l)[k] == x;
    }
    if x in InsideSyms(l) {
      var k :| 0 <= k < |l| && InsideSyms(l)[k] == x;
      assert l[k] == x;
    }
  }

  lemma NamesInside(c: seq<Sym>, l: seq<Sym>)
    ensures OnlyNamesOf(InsideSyms(c), InsideSyms(l)) <==> OnlyNamesOf(c, l)
  {
    forall k | 0 <= k < |c|
      ensures InsideSyms(c)[k].Var? && InsideSyms(c)[k] in InsideSyms(l) <==> c[k].Var? && c[k] in l
    {
      if c[k].Var? { VarInside(c[k], l); }
    }
  }

  lemma CollapsibleInside(pattern: seq<Component>)
    ensures CollapsibleComponents(InsideComponents(pattern)) <==> CollapsibleComponents(pattern)
  {
    var inside := InsideComponents(pattern);
    forall i | 0 <= i < |pattern| ensures inside[i] == InsideComponent(pattern[i]) {}
    if pattern != [] && LastOf(pattern).Plain? {
      var l := LastOf(pattern).syms;
      StarLikeInside(l);
      forall i | 0 <= i < |pattern| && pattern[i].Plain?
        ensures OnlyNamesOf(inside[i].syms, InsideSyms(l)) <==> OnlyNamesOf(pattern[i].syms, l)
      {
        NamesInside(pattern[i].syms, l);
      }
    }
  }

  lemma {:induction false} RunInside(ts: seq<Token>)
    ensures StarRun(WithoutSlash(ts)) <==> StarRun(ts)
    ensures EndsComponent(WithoutSlash(ts)) <==> EndsComponent(ts)
  {
    if ts != [] {
      WithoutSlashInit(ts);
      RunInside(ts[..|ts| - 1]);
    }
  }

  lemma NameInside(ts: seq<Token>, n: string)
    ensures Named(n) in WithoutSlash(ts) <==> Named(n) in ts
  {
    if Named(n) in ts {
      var k :| 0 <= k < |ts| && ts[k] == Named(n);
      assert WithoutSlash(ts)[k] == Named(n);
    }
    if Named(n) in WithoutSlash(ts) {
      var k :| 0 <= k < |ts| && WithoutSlash(ts)[k] == Named(n);
      assert ts[k] == Named(n);
    }
  }

  lemma GuardInside(ts: seq<Token>)
    requires Lexed(ts) && ts != []
    ensures Guarded(Build(WithoutSlash(ts)).parts) <==> Guarded(Build(ts).parts)
  {
    LexedInside(ts);
    GuardedMeans(ts);
    GuardedMeans(WithoutSlash(ts));
    RunInside(ts);
    RunInside(ts[..|ts| - 1]);
    WithoutSlashInit(ts);
    if ts[|ts| - 1].Named? { NameInside(ts[..|ts| - 1], ts[|ts| - 1].name); }
  }

  lemma SameCollapsible(ts: seq<Token>)
    requires Lexed(ts) && ts != []
    ensures Collapsible(WithoutSlash(ts)) <==> Collapsible(ts)
  {
    SymsInside(ts);
    ComponentsInside(Syms(ts));
    CollapsibleInside(Components(Syms(ts)));
    GuardInside(ts);
  }

  /**
   * For any classes, and with `**`: the scan finds every clean path that the expression accepts without a
   * class that stands for a separator, if and only if the pattern is not collapsible.
   */
  lemma InclusionForAnyClasses(ts: seq<Token>)
    requires Lexed(ts) && ts != [] && GlobFits(ts) && Feasible(WithoutSlash(ts))
    ensures (forall p :: CleanPath(p) && Accepts(RegexParts(WithoutSlash(ts)), p) ==> GlobFinds(ts, p))
            <==> !Collapsible(ts)
  {
    WithoutSlashKeeps(ts);
    SameCollapsible(ts);
    InclusionIffNotCollapsible(WithoutSlash(ts));
  }
}
