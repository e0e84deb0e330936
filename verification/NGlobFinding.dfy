/**
 * nglob.py: what the glob module finds for the converted pattern, read off the fragments: the plain reading
 * in which every name is a star.
 */
module NGlobFinding {
  import opened NGlobSymbols
  import opened NGlobRegex
  import opened NGlobGlob
  import opened NGlobShape
  import opened NGlobInclusion
  import opened NGlobReading

  // ---- From components back to the plain reading ----

  predicate NoDepth(pattern: seq<Component>) {
    forall i :: 0 <= i < |pattern| ==> !pattern[i].AnyDepth?
  }

  lemma {:induction false} GlobIsLoose(pattern: seq<Component>, names: seq<string>)
    requires NoDepth(pattern) && GlobMatch(pattern, names)
    ensures Loose(pattern, map[], names)
    decreases |pattern|, |names|
  {
    if pattern != [] {
      if pattern[0].Plain? {
        GlobIsLoose(pattern[1..], names[1..]);
      } else if GlobMatch(pattern[1..], names) {
        GlobIsLoose(pattern[1..], names);
      } else {
        GlobIsLoose(pattern, names[1..]);
      }
    }
  }

  predicate NoDeep(xs: seq<Sym>) {
    forall k :: 0 <= k < |xs| ==> !xs[k].Deep?
  }

  lemma {:induction false} NoDeepNoDepth(xs: seq<Sym>)
    requires NoDeep(xs)
    ensures NoDepth(Components(xs))
  {
    if xs != [] {
      assert NoDeep(xs[1..]) && !xs[0].Deep?;
      NoDeepNoDepth(xs[1..]);
    }
  }

  /** The first name is what comes before the first separator. */
  lemma {:induction false} FirstName(s: string)
    ensures var n := |Names(s)[0]|;
            && n <= |s| && Names(s)[0] == s[..n] && NoSlash(s[..n])
            && (|Names(s)| == 1 ==> n == |s|)
            && (|Names(s)| > 1 ==> n < |s| && s[n] == '/' && Names(s)[1..] == Names(s[n + 1..]))
  {
    if s != [] && s[0] != '/' {
      FirstName(s[1..]);
      var n := |Names(s[1..])[0]|;
      assert s[..n + 1] == [s[0]] + s[1..][..n];
      assert |Names(s)| > 1 ==> s[1..][n + 1..] == s[n + 2..];
    }
  }

  /** A pattern whose last component is plain needs a name. */
  lemma NeedsName(xs: seq<Sym>, env: Env)
    requires Shaped(xs) && NoDeep(xs)
    ensures !Loose(Components(xs), env, [])
  {
    LastComponent(xs);
    if Loose(Components(xs), env, []) { LooseNeedsNames(Components(xs), env); }
    if xs != [] { LastIsOpen(xs); }
  }

  lemma LastIsOpen(xs: seq<Sym>)
    requires Shaped(xs) && NoDeep(xs) && xs != []
    ensures var x := xs[|xs| - 1]; x == Ch('/') || x == Dirs || Small(x)
  {
  }

  lemma DirsTakeName(xs: seq<Sym>, env: Env, s: string, n: nat)
    requires xs != [] && xs[0] == Dirs && n < |s| && s[n] == '/' && OneLine(s) && Flat(xs, env, s[n + 1..])
    ensures Flat(xs, env, s)
  {
    var rest := s[n + 1..];
    var j := FlatUncons(xs, env, rest);
    var k := n + 1 + j;
    assert s[..k] == s[..n + 1] + rest[..j] && s[k..] == rest[j..];
    assert s[..k][k - 1] == if j == 0 then s[n] else rest[..j][j - 1];
    FlatFront(xs, env, s, k);
  }

  lemma SmallTakes(xs: seq<Sym>, env: Env, s: string, k: nat)
    requires Shaped(xs) && xs != [] && Small(xs[0])
    requires k <= |Names(s)[0]| && SymMatch(xs[0], env, Names(s)[0][..k])
    ensures k <= |s| && SymMatch(xs[0], env, s[..k])
    ensures Names(s[k..]) == [Names(s)[0][k..]] + Names(s)[1..]
  {
    FirstName(s);
    assert s[..k] == Names(s)[0][..k] && s == s[..k] + s[k..];
    SmallPiece(xs[0], env, s[..k]);
    NamesAfter(s[..k], s[k..]);
  }

  lemma NamesAfter(a: string, b: string)
    requires NoSlash(a)
    ensures |a| <= |Names(a + b)[0]| && Names(b) == [Names(a + b)[0][|a|..]] + Names(a + b)[1..]
  {
    NamesOfPiece(a, b);
    assert (a + Names(b)[0])[|a|..] == Names(b)[0];
    assert Names(b) == [Names(b)[0]] + Names(b)[1..];
  }

  lemma {:induction false} LooseReads(xs: seq<Sym>, env: Env, s: string)
    requires Shaped(xs) && NoDeep(xs) && OneLine(s) && Loose(Components(xs), env, Names(s))
    ensures Flat(xs, env, s)
    decreases |xs|, |s|
  {
    var names := Names(s);
    FirstName(s);
    if xs == [] {
      assert Components(xs)[1..] == [] && names[1..] == [];
    } else {
      ShapedTail(xs);
      assert NoDeep(xs[1..]);
      var r := Components(xs[1..]);
      var n := |names[0]|;
      if xs[0] == Dirs {
        assert ([AnyDirs] + r)[1..] == r;
        NeedsName(xs, env);
        if Loose(r, env, names) {
          LooseReads(xs[1..], env, s);
          assert s[..0] == [] && s[0..] == s;
          FlatFront(xs, env, s, 0);
        } else {
          LooseReads(xs, env, s[n + 1..]);
          DirsTakeName(xs, env, s, n);
        }
      } else if xs[0] == Ch('/') {
        assert ([Plain([])] + r)[1..] == r;
        NeedsName(xs[1..], env);
        assert names[0] == [];
        LooseReads(xs[1..], env, s[1..]);
        assert s[..1] == ['/'];
        FlatFront(xs, env, s, 1);
      } else {
        FirstIsPlain(xs[1..]);
        assert ([Plain([xs[0]] + r[0].syms)] + r[1..])[1..] == r[1..];
        SmallReadsBack(xs, r, env, s);
      }
    }
  }

  lemma SmallReadsBack(xs: seq<Sym>, r: seq<Component>, env: Env, s: string)
    requires Shaped(xs) && NoDeep(xs) && OneLine(s) && xs != [] && Small(xs[0]) && Shaped(xs[1..])
    requires r == Components(xs[1..]) && r[0].Plain?
    requires Flat([xs[0]] + r[0].syms, env, Names(s)[0]) && Loose(r[1..], env, Names(s)[1..])
    ensures Flat(xs, env, s)
    decreases |xs|, |s|, 0
  {
    var k := FlatUncons([xs[0]] + r[0].syms, env, Names(s)[0]);
    assert ([xs[0]] + r[0].syms)[1..] == r[0].syms;
    SmallTakes(xs, env, s, k);
    assert ([Names(s)[0][k..]] + Names(s)[1..])[1..] == Names(s)[1..];
    LooseReads(xs[1..], env, s[k..]);
    FlatFront(xs, env, s, k);
  }

  // ---- Merging changes nothing ----

  function SubstitutedAll(ts: seq<Token>): (us: seq<Token>)
    ensures |us| == |ts|
  {
    seq(|ts|, k requires 0 <= k < |ts| => Substituted(ts[k]))
  }

  lemma EmptyPiece(us: seq<Token>, t: Token, env: Env, s: string)
    requires (t.Star? || t.RecSlash?) && Flat(Syms(us), env, s)
    ensures Flat(Syms(us) + TokenSyms(t), env, s)
  {
    FlatOne(TokenSyms(t)[0], env, []);
    FlatJoin(Syms(us), TokenSyms(t), env, s, []);
    assert s + [] == s;
  }

  lemma {:induction false} MergingBack(ts: seq<Token>, env: Env, s: string)
    requires Lexed(ts) && Flat(Syms(GlobTokens(ts)), env, s)
    ensures Flat(Syms(SubstitutedAll(ts)), env, s)
  {
    if ts != [] {
      var init, t := ts[..|ts| - 1], Substituted(ts[|ts| - 1]);
      GlobTokensShape(ts);
      assert SubstitutedAll(ts)[..|ts| - 1] == SubstitutedAll(init);
      if GlobMerges(GlobTokens(init), t) {
        MergingBack(init, env, s);
        EmptyPiece(SubstitutedAll(init), t, env, s);
      } else {
        SymsAppend(GlobTokens(init), t);
        var k := FlatSplit(Syms(GlobTokens(init)), TokenSyms(t), env, s);
        MergingBack(init, env, s[..k]);
        FlatJoinAt(Syms(SubstitutedAll(init)), TokenSyms(t), env, s, k);
      }
    }
  }

  lemma {:induction false} SubstitutedTwice(ts: seq<Token>)
    ensures GlobTokens(SubstitutedAll(ts)) == GlobTokens(ts)
  {
    if ts != [] {
      SubstitutedTwice(ts[..|ts| - 1]);
      assert SubstitutedAll(ts)[..|ts| - 1] == SubstitutedAll(ts[..|ts| - 1]);
    }
  }

  lemma {:induction false} SubstitutedIsLexed(ts: seq<Token>)
    requires Lexed(ts)
    ensures Lexed(SubstitutedAll(ts))
  {
    if ts != [] {
      SubstitutedIsLexed(ts[..|ts| - 1]);
      assert SubstitutedAll(ts)[..|ts| - 1] == SubstitutedAll(ts[..|ts| - 1]);
      if |ts| > 1 { assert ts[..|ts| - 1][|ts| - 2] == ts[|ts| - 2]; }
    }
  }

  ghost predicate NoSlashClasses(ts: seq<Token>) {
    forall i :: 0 <= i < |ts| && ts[i].Class? ==> '/' !in ts[i].glob
  }

  lemma SubstitutedFits(ts: seq<Token>)
    requires NoSlashClasses(ts)
    ensures Fits(SubstitutedAll(ts))
  {
    var us := SubstitutedAll(ts);
    forall i | 0 <= i < |us| && us[i].Class? ensures '/' !in us[i].glob && us[i].regex <= us[i].glob {
      assert us[i] == Substituted(ts[i]);
    }
  }

  lemma LastStays(ts: seq<Token>)
    requires Lexed(ts) && ts != [] && ts[|ts| - 1] != Rec
    ensures Lexed(GlobTokens(ts)) && GlobTokens(ts) != [] && GlobTokens(ts)[|GlobTokens(ts)| - 1] != Rec
  {
    GlobTokensFollow(ts);
  }

  lemma LastIsNotDeep(ts: seq<Token>)
    requires Lexed(ts) && ts != [] && ts[|ts| - 1] != Rec && Shaped(Syms(ts))
    ensures NoDeep(Syms(ts))
  {
    LastSym(ts);
  }

  lemma GlobSymsShape(ts: seq<Token>)
    requires Lexed(ts) && ts != [] && ts[|ts| - 1] != Rec && NoSlashClasses(ts)
    ensures Shaped(Syms(GlobTokens(ts))) && NoDeep(Syms(GlobTokens(ts)))
  {
    SubstitutedIsLexed(ts);
    SubstitutedTwice(ts);
    SubstitutedFits(ts);
    GlobPatternShape(SubstitutedAll(ts));
    LastStays(ts);
    LastIsNotDeep(GlobTokens(ts));
  }

  lemma FoundIsRead(ts: seq<Token>, p: string)
    requires Lexed(ts) && ts != [] && ts[|ts| - 1] != Rec && NoSlashClasses(ts)
    requires OneLine(p) && GlobMatch(GlobPattern(ts), Names(p))
    ensures Flat(Syms(SubstitutedAll(ts)), map[], p)
  {
    GlobSymsShape(ts);
    NoDeepNoDepth(Syms(GlobTokens(ts)));
    GlobIsLoose(GlobPattern(ts), Names(p));
    LooseReads(Syms(GlobTokens(ts)), map[], p);
    MergingBack(ts, map[], p);
  }

  lemma ReadIsFound(ts: seq<Token>, p: string)
    requires Lexed(ts) && ts != [] && NoSlashClasses(ts)
    requires CleanPath(p) && !EndsInSlash(p) && Flat(Syms(SubstitutedAll(ts)), map[], p)
    ensures GlobFinds(ts, p)
  {
    SubstitutedIsLexed(ts);
    SubstitutedTwice(ts);
    SubstitutedFits(ts);
    FoundAsFile(SubstitutedAll(ts), map[], p);
  }

  /** What a fragment stands for in the scan: a name for anything in a component, each time anew. */
  predicate ScansFor(t: Token, x: string) {
    match t
    case Text(text) => x == text
    case One => |x| == 1 && x[0] != '/'
    case Class(_, glob) => |x| == 1 && x[0] in glob
    case RecSlash => '\n' !in x && (x == "" || x[|x| - 1] == '/')
    case Rec => '\n' !in x
    case Star => '/' !in x
    case Named(_) => '/' !in x
  }

  ghost predicate ScanSplits(ts: seq<Token>, p: string, xs: seq<string>) {
    |xs| == |ts| && Concat(xs) == p && forall k :: 0 <= k < |ts| ==> ScansFor(ts[k], xs[k])
  }

  lemma SplitsScan(ts: seq<Token>, p: string, xs: seq<string>)
    ensures Splits(SubstitutedAll(ts), map[], p, xs) <==> ScanSplits(ts, p, xs)
  {
    if |xs| == |ts| {
      forall k | 0 <= k < |ts| ensures StandsFor(SubstitutedAll(ts)[k], map[], xs[k]) <==> ScansFor(ts[k], xs[k]) {}
    }
  }

  /**
   * For a pattern that does not end in `**` and any classes that accept no separator: the scan finds a clean
   * path of a file if and only if the path splits into one piece for each fragment, a star for each name.
   */
  lemma GlobReadsPattern(ts: seq<Token>, p: string)
    requires Lexed(ts) && ts != [] && ts[|ts| - 1] != Rec
    requires forall i :: 0 <= i < |ts| && ts[i].Class? ==> '/' !in ts[i].glob
    requires CleanPath(p) && p[|p| - 1] != '/' && '\n' !in p
    ensures GlobFinds(ts, p) <==> exists xs :: ScanSplits(ts, p, xs)
  {
    forall xs ensures Splits(SubstitutedAll(ts), map[], p, xs) <==> ScanSplits(ts, p, xs) { SplitsScan(ts, p, xs); }
    PlainReading(SubstitutedAll(ts), map[], p);
    if GlobFinds(ts, p) { FoundIsRead(ts, p); }
    if Reading(SubstitutedAll(ts), map[], p) { ReadIsFound(ts, p); }
  }
}
