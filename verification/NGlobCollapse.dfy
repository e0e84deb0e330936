/**
 * nglob.py: for every collapsible pattern there is a path that the regular expression accepts and the
 * file scan does not find. With the inclusion for all other patterns, the condition is exact.
 */
module NGlobCollapse {
  import opened NGlobSymbols
  import opened NGlobRegex
  import opened NGlobMeaning
  import opened NGlobGlob
  import opened NGlobShape
  import opened NGlobInclusion

  /** Every class accepts some character. */
  ghost predicate Feasible(ts: seq<Token>) {
    forall i :: 0 <= i < |ts| && ts[i].Class? ==> ts[i].regex != {}
  }

  ghost predicate FeasibleSyms(xs: seq<Sym>) {
    forall i :: 0 <= i < |xs| && xs[i].In? ==> xs[i].chars != {}
  }

  lemma {:induction false} FeasibleTokens(ts: seq<Token>)
    requires Feasible(ts)
    ensures FeasibleSyms(Syms(ts))
  {
    if ts != [] {
      FeasibleTokens(ts[..|ts| - 1]);
      assert ts[|ts| - 1].Class? ==> ts[|ts| - 1].regex != {};
    }
  }

  // ---- The witness ----

  /** Names of the last component are empty, all others are one letter. */
  ghost function WitnessEnv(xs: seq<Sym>, last: seq<Sym>): Env {
    map n | n in VarNames(xs) :: if Var(n, false) in last then [] else ['a']
  }

  function VarNames(xs: seq<Sym>): set<string> {
    set k | 0 <= k < |xs| && xs[k].Var? :: xs[k].name
  }

  /** A shortest piece for a symbol, but one letter for a star. */
  ghost function Piece(x: Sym, env: Env): string
    requires x.In? ==> x.chars != {}
  {
    match x
    case Ch(c) => [c]
    case In(chars) => (var c :| c in chars; [c])
    case AnyOne => ['a']
    case Many(_) => ['a']
    case Var(n, _) => if n in env then env[n] else []
    case _ => []
  }

  ghost function Pieces(xs: seq<Sym>, env: Env): string
    requires FeasibleSyms(xs)
  {
    if xs == [] then [] else Piece(xs[0], env) + Pieces(xs[1..], env)
  }

  predicate OneComponent(xs: seq<Sym>) {
    forall k :: 0 <= k < |xs| ==> Small(xs[k])
  }

  /** The pieces of all components but the last one, which matches nothing. */
  ghost function Witness(xs: seq<Sym>, env: Env): string
    requires FeasibleSyms(xs)
  {
    if OneComponent(xs) then [] else Piece(xs[0], env) + Witness(xs[1..], env)
  }

  /** The names of the witness: one for each component that is not `**`, and an empty last one. */
  ghost function WitnessNames(pattern: seq<Component>, env: Env): seq<string>
    requires forall i :: 0 <= i < |pattern| && pattern[i].Plain? ==> FeasibleSyms(pattern[i].syms)
  {
    if |pattern| <= 1 then [[]]
    else if pattern[0].Plain? then [Pieces(pattern[0].syms, env)] + WitnessNames(pattern[1..], env)
    else WitnessNames(pattern[1..], env)
  }

  ghost predicate FeasibleComponents(pattern: seq<Component>) {
    forall i :: 0 <= i < |pattern| && pattern[i].Plain? ==> FeasibleSyms(pattern[i].syms)
  }

  lemma {:induction false} ComponentsFeasible(xs: seq<Sym>)
    requires FeasibleSyms(xs)
    ensures FeasibleComponents(Components(xs))
  {
    if xs != [] {
      assert FeasibleSyms(xs[1..]);
      ComponentsFeasible(xs[1..]);
    }
  }

  lemma {:induction false} OneComponentIs(xs: seq<Sym>)
    requires OneComponent(xs)
    ensures Components(xs) == [Plain(xs)]
  {
    if xs != [] {
      OneComponentIs(xs[1..]);
      assert [xs[0]] + xs[1..] == xs;
    }
  }

  lemma {:induction false} SeveralComponents(xs: seq<Sym>)
    requires Shaped(xs) && !OneComponent(xs) && !LastOf(Components(xs)).AnyDepth?
    ensures |Components(xs)| > 1 && LastOf(Components(xs)) == LastOf(Components(xs[1..])) && !xs[0].Deep?
  {
    ShapedTail(xs);
    if Small(xs[0]) {
      assert !OneComponent(xs[1..]);
      FirstIsPlain(xs[1..]);
      SeveralComponents(xs[1..]);
    }
  }

  lemma PieceMatches(x: Sym, env: Env)
    requires (x.In? ==> x.chars != {}) && !x.Deep? && x != MaybeSlash
    requires x.Var? ==> !x.some && x.name in env && NoSlash(env[x.name])
    ensures SymMatch(x, env, Piece(x, env))
    ensures Small(x) ==> NoSlash(Piece(x, env))
  {
  }

  /** The names of an environment hold no separator, and every name of the pattern is there. */
  ghost predicate EnvFits(xs: seq<Sym>, env: Env) {
    forall k :: 0 <= k < |xs| && xs[k].Var? ==> !xs[k].some && xs[k].name in env && NoSlash(env[xs[k].name])
  }

  lemma {:induction false} NothingMatches(xs: seq<Sym>, env: Env)
    requires AllStarLike(xs) && EnvFits(xs, env)
    requires forall k :: 0 <= k < |xs| && xs[k].Many? ==> !xs[k].some
    requires forall k :: 0 <= k < |xs| && xs[k].Var? ==> env[xs[k].name] == []
    ensures Flat(xs, env, [])
  {
    if xs != [] {
      NothingMatches(xs[1..], env);
      assert SymMatch(xs[0], env, []);
      FlatFront(xs, env, [], 0);
    }
  }

  lemma {:induction false} WitnessMatches(xs: seq<Sym>, env: Env)
    requires Shaped(xs) && FeasibleSyms(xs) && EnvFits(xs, env)
    requires LastOf(Components(xs)).Plain? && Flat(LastOf(Components(xs)).syms, env, [])
    ensures Flat(xs, env, Witness(xs, env))
  {
    if OneComponent(xs) {
      OneComponentIs(xs);
    } else {
      SeveralComponents(xs);
      ShapedTail(xs);
      assert FeasibleSyms(xs[1..]) && EnvFits(xs[1..], env);
      WitnessMatches(xs[1..], env);
      PieceMatches(xs[0], env);
      FlatCons(xs[0], xs[1..], env, Piece(xs[0], env), Witness(xs[1..], env));
      assert [xs[0]] + xs[1..] == xs;
    }
  }

  lemma {:induction false} WitnessHasNames(xs: seq<Sym>, env: Env)
    requires Shaped(xs) && FeasibleSyms(xs) && EnvFits(xs, env) && LastOf(Components(xs)).Plain?
    ensures FeasibleComponents(Components(xs))
    ensures Names(Witness(xs, env)) == WitnessNames(Components(xs), env)
  {
    ComponentsFeasible(xs);
    if OneComponent(xs) {
      OneComponentIs(xs);
    } else {
      SeveralComponents(xs);
      ShapedTail(xs);
      assert FeasibleSyms(xs[1..]) && EnvFits(xs[1..], env);
      WitnessHasNames(xs[1..], env);
      var r, w := Components(xs[1..]), Witness(xs[1..], env);
      PieceMatches(xs[0], env);
      if xs[0] == Dirs {
        assert [] + w == w && ([AnyDirs] + r)[1..] == r;
      } else if xs[0] == Ch('/') {
        assert (['/'] + w)[1..] == w && ([Plain([])] + r)[1..] == r;
      } else {
        SmallWitness(xs, env);
      }
    }
  }

  lemma SmallWitness(xs: seq<Sym>, env: Env)
    requires Shaped(xs) && FeasibleSyms(xs) && EnvFits(xs, env) && LastOf(Components(xs)).Plain?
    requires !OneComponent(xs) && Small(xs[0])
    requires FeasibleComponents(Components(xs)) && FeasibleComponents(Components(xs[1..])) && FeasibleSyms(xs[1..])
    requires Names(Witness(xs[1..], env)) == WitnessNames(Components(xs[1..]), env)
    ensures Names(Witness(xs, env)) == WitnessNames(Components(xs), env)
  {
    ShapedTail(xs);
    FirstIsPlain(xs[1..]);
    SeveralComponents(xs);
    SeveralComponents(xs[1..]);
    PieceMatches(xs[0], env);
    var r, p := Components(xs[1..]), Piece(xs[0], env);
    var head := [xs[0]] + r[0].syms;
    assert Components(xs) == [Plain(head)] + r[1..] && ([Plain(head)] + r[1..])[1..] == r[1..];
    assert head[1..] == r[0].syms;
    assert Pieces(head, env) == p + Pieces(r[0].syms, env);
    NamesOfPiece(p, Witness(xs[1..], env));
  }

  /** A component with a symbol that is no name of the last component has a nonempty piece. */
  lemma {:induction false} PiecesNonempty(c: seq<Sym>, xs: seq<Sym>, last: seq<Sym>)
    requires FeasibleSyms(c) && OneComponent(c) && !OnlyNamesOf(c, last)
    requires forall k :: 0 <= k < |c| && c[k].Var? ==> !c[k].some && c[k].name in VarNames(xs)
    ensures Pieces(c, WitnessEnv(xs, last)) != []
  {
    var env := WitnessEnv(xs, last);
    if OnlyNamesOf([c[0]], last) {
      assert [c[0]][0] in last;
      assert c == [c[0]] + c[1..];
      PiecesNonempty(c[1..], xs, last);
    } else {
      assert Piece(c[0], env) != [] by { assert [c[0]][0] == c[0]; }
    }
  }

  lemma {:induction false} WitnessNamesCount(pattern: seq<Component>, env: Env)
    requires FeasibleComponents(pattern) && pattern != [] && LastOf(pattern).Plain?
    ensures |WitnessNames(pattern, env)| == PlainCount(pattern) >= 1
    ensures WitnessNames(pattern, env)[|WitnessNames(pattern, env)| - 1] == []
  {
    if |pattern| > 1 {
      WitnessNamesCount(pattern[1..], env);
    } else {
      assert PlainCount(pattern[1..]) == 0;
    }
  }

  ghost predicate PiecesAreNonempty(pattern: seq<Component>, env: Env)
    requires FeasibleComponents(pattern)
  {
    forall i :: 0 <= i < |pattern| - 1 && pattern[i].Plain? ==> Pieces(pattern[i].syms, env) != []
  }

  lemma {:induction false} WitnessNamesNonempty(pattern: seq<Component>, env: Env, k: nat)
    requires FeasibleComponents(pattern) && PiecesAreNonempty(pattern, env)
    requires k < |WitnessNames(pattern, env)| - 1
    ensures WitnessNames(pattern, env)[k] != []
  {
    var tail := pattern[1..];
    assert forall i :: 0 <= i < |tail| ==> tail[i] == pattern[i + 1];
    if !pattern[0].Plain? {
      WitnessNamesNonempty(tail, env, k);
    } else if k > 0 {
      WitnessNamesNonempty(tail, env, k - 1);
    }
  }

  // ---- The scan does not find it ----

  lemma {:induction false} GlobNeedsNames(pattern: seq<Component>, names: seq<string>)
    requires GlobMatch(pattern, names)
    ensures |names| >= PlainCount(pattern)
    ensures pattern != [] && LastOf(pattern).Plain? && LastOf(pattern).syms != [] ==> names != [] && names[|names| - 1] != []
    decreases |pattern|, |names|
  {
    if pattern != [] {
      match pattern[0]
      case Plain(_) =>
        GlobNeedsNames(pattern[1..], names[1..]);
      case _ =>
        if GlobMatch(pattern[1..], names) { GlobNeedsNames(pattern[1..], names); }
        else { GlobNeedsNames(pattern, names[1..]); }
    }
  }

  lemma SlashFirst(p: string)
    ensures StartsInSlash(p) ==> Names(p)[0] == [] && |Names(p)| > 1
  {
  }

  /** A string with these names is a clean path with a trailing separator. */
  lemma {:induction false} CleanFromNames(p: string)
    requires |Names(p)| >= 1 && forall k :: 1 <= k < |Names(p)| - 1 ==> Names(p)[k] != []
    ensures NoDoubleSlash(p)
  {
    if p != [] {
      var r := Names(p[1..]);
      if p[0] == '/' {
        assert forall k :: 0 <= k < |r| ==> Names(p)[k + 1] == r[k];
        SlashFirst(p[1..]);
      } else {
        assert forall k :: 1 <= k < |r| ==> Names(p)[k] == r[k];
      }
      CleanFromNames(p[1..]);
      forall k | 0 <= k < |p| - 1 ensures !(p[k] == '/' && p[k + 1] == '/') {
        if k > 0 { assert p[k] == p[1..][k - 1] && p[k + 1] == p[1..][k]; }
      }
    }
  }

  /** The premises about the witness of a collapsible pattern, once more for the lemmas below. */
  ghost predicate IsWitness(ts: seq<Token>, env: Env, p: string) {
    && CleanPath(p) && EndsInSlash(p) && Flat(Syms(ts), env, p)
    && |Names(p)| == PlainCount(Components(Syms(ts)))
  }

  lemma {:induction false} VarsOfTokens(ts: seq<Token>)
    ensures forall k :: 0 <= k < |Syms(ts)| && Syms(ts)[k].Var? ==> !Syms(ts)[k].some
  {
    if ts != [] { VarsOfTokens(ts[..|ts| - 1]); }
  }

  /** The symbols of a component are symbols of the pattern. */
  lemma {:induction false} ComponentSyms(xs: seq<Sym>, i: nat, k: nat)
    requires i < |Components(xs)| && Components(xs)[i].Plain? && k < |Components(xs)[i].syms|
    ensures Components(xs)[i].syms[k] in xs
  {
    if xs != [] && !xs[0].Deep? {
      if xs[0] == Dirs || xs[0] == Ch('/') {
        if i > 0 { ComponentSyms(xs[1..], i - 1, k); }
      } else {
        var r := Components(xs[1..]);
        if r[0].Plain? && i == 0 {
          if k > 0 { ComponentSyms(xs[1..], 0, k - 1); }
        } else {
          ComponentSyms(xs[1..], i, k);
        }
      }
    }
  }

  lemma WitnessPieces(ts: seq<Token>)
    requires Lexed(ts) && Fits(ts) && Feasible(ts) && CollapsibleComponents(Components(Syms(ts)))
    ensures FeasibleSyms(Syms(ts)) && FeasibleComponents(Components(Syms(ts)))
    ensures PiecesAreNonempty(Components(Syms(ts)), WitnessEnv(Syms(ts), LastOf(Components(Syms(ts))).syms))
  {
    var xs := Syms(ts);
    var pattern := Components(xs);
    FeasibleTokens(ts);
    ComponentsFeasible(xs);
    LexedIsShaped(ts);
    VarsOfTokens(ts);
    forall i | 0 <= i < |pattern| - 1 && pattern[i].Plain?
      ensures Pieces(pattern[i].syms, WitnessEnv(xs, LastOf(pattern).syms)) != []
    {
      ComponentsAreSmall(xs, i);
      forall k | 0 <= k < |pattern[i].syms| ensures pattern[i].syms[k] in xs { ComponentSyms(xs, i, k); }
      PiecesNonempty(pattern[i].syms, xs, LastOf(pattern).syms);
    }
  }

  lemma WitnessEnvFits(xs: seq<Sym>, last: seq<Sym>)
    requires forall k :: 0 <= k < |xs| && xs[k].Var? ==> !xs[k].some
    ensures EnvFits(xs, WitnessEnv(xs, last))
  {
  }

  lemma LastMatchesNothing(xs: seq<Sym>, last: seq<Sym>)
    requires AllStarLike(last) && forall k :: 0 <= k < |last| ==> last[k] in xs
    requires forall k :: 0 <= k < |xs| && xs[k].Var? ==> !xs[k].some
    requires forall k :: 0 <= k < |xs| && xs[k].Many? ==> !xs[k].some
    ensures Flat(last, WitnessEnv(xs, last), [])
  {
    forall k | 0 <= k < |last| && last[k].Var?
      ensures last[k].name in VarNames(xs) && WitnessEnv(xs, last)[last[k].name] == []
    {
      assert last[k] == Var(last[k].name, false);
    }
    NothingMatches(last, WitnessEnv(xs, last));
  }

  lemma EmptyLastFits(ts: seq<Token>)
    requires Lexed(ts) && Fits(ts) && CollapsibleComponents(Components(Syms(ts)))
    ensures var l := LastOf(Components(Syms(ts))).syms;
            EnvFits(Syms(ts), WitnessEnv(Syms(ts), l)) && Flat(l, WitnessEnv(Syms(ts), l), [])
  {
    var xs := Syms(ts);
    var i := |Components(xs)| - 1;
    var l := Components(xs)[i].syms;
    LexedIsShaped(ts);
    VarsOfTokens(ts);
    StarsAreOptional(ts);
    WitnessEnvFits(xs, l);
    forall k | 0 <= k < |l| ensures l[k] in xs { ComponentSyms(xs, i, k); }
    LastMatchesNothing(xs, l);
  }

  lemma WitnessIsClean(pattern: seq<Component>, env: Env, p: string)
    requires FeasibleComponents(pattern) && PiecesAreNonempty(pattern, env)
    requires pattern != [] && LastOf(pattern).Plain?
    requires exists i :: 0 <= i < |pattern| - 1 && pattern[i].Plain?
    requires Names(p) == WitnessNames(pattern, env)
    ensures CleanPath(p) && EndsInSlash(p) && |Names(p)| == PlainCount(pattern)
  {
    WitnessNamesCount(pattern, env);
    SomePlain(pattern);
    forall k | 0 <= k < |Names(p)| - 1 ensures Names(p)[k] != [] { WitnessNamesNonempty(pattern, env, k); }
    CleanFromNames(p);
    NamesOfClean(p);
  }

  lemma WitnessExists(ts: seq<Token>) returns (env: Env, p: string)
    requires Lexed(ts) && Fits(ts) && Feasible(ts) && CollapsibleComponents(Components(Syms(ts)))
    ensures IsWitness(ts, env, p)
  {
    var xs := Syms(ts);
    var pattern := Components(xs);
    LexedIsShaped(ts);
    WitnessPieces(ts);
    EmptyLastFits(ts);
    env := WitnessEnv(xs, LastOf(pattern).syms);
    p := Witness(xs, env);
    WitnessMatches(xs, env);
    WitnessHasNames(xs, env);
    WitnessIsClean(pattern, env, p);
  }

  lemma {:induction false} SomePlain(pattern: seq<Component>)
    requires pattern != [] && LastOf(pattern).Plain? && exists i :: 0 <= i < |pattern| - 1 && pattern[i].Plain?
    ensures PlainCount(pattern) >= 2
  {
    var i :| 0 <= i < |pattern| - 1 && pattern[i].Plain?;
    if i == 0 {
      LastCounts(pattern[1..]);
    } else {
      assert pattern[1..][i - 1].Plain?;
      SomePlain(pattern[1..]);
    }
  }

  lemma {:induction false} LastCounts(pattern: seq<Component>)
    requires pattern != [] && LastOf(pattern).Plain?
    ensures PlainCount(pattern) >= 1
  {
    if |pattern| > 1 { LastCounts(pattern[1..]); }
  }

  lemma OneMoreThanSlashes(ts: seq<Token>)
    requires Lexed(ts) && Fits(ts) && ts != [] && !ts[|ts| - 1].Rec?
    ensures PlainCount(Components(Syms(ts))) == Slashes(Syms(ts)) + 1
  {
    LexedIsShaped(ts);
    LastSymKind(ts);
    PlainPerSlash(Syms(ts));
  }

  /** Merging keeps the number of components other than `**`, and the last of them is not empty. */
  lemma GlobPatternCounts(ts: seq<Token>)
    requires Lexed(ts) && Fits(ts) && ts != [] && CollapsibleComponents(Components(Syms(ts)))
    ensures PlainCount(GlobPattern(ts)) == PlainCount(Components(Syms(ts)))
    ensures LastOf(GlobPattern(ts)).Plain? && LastOf(GlobPattern(ts)).syms != []
  {
    GlobTokensShape(ts);
    GlobTokensFit(ts);
    EndOfPattern(ts);
    EndOfPattern(GlobTokens(ts));
    OneMoreThanSlashes(ts);
    OneMoreThanSlashes(GlobTokens(ts));
    MergingKeepsSlashes(ts);
  }

  lemma WitnessNotFound(ts: seq<Token>, env: Env, p: string)
    requires Lexed(ts) && Fits(ts) && ts != [] && CollapsibleComponents(Components(Syms(ts))) && IsWitness(ts, env, p)
    ensures !GlobFinds(ts, p)
  {
    GlobPatternCounts(ts);
    CleanDirectory(p);
    if GlobMatch(GlobPattern(ts), Names(p)) { GlobNeedsNames(GlobPattern(ts), Names(p)); }
    if GlobMatch(GlobPattern(ts), Names(p[..|p| - 1])) { GlobNeedsNames(GlobPattern(ts), Names(p[..|p| - 1])); }
  }

  lemma WitnessAccepted(ts: seq<Token>, env: Env, p: string)
    requires Lexed(ts) && !Guarded(Build(ts).parts) && IsWitness(ts, env, p)
    ensures Accepts(RegexParts(ts), p)
  {
    RegexMeaning(ts, env, p);
  }

  /**
   * The scan finds every clean path that the regular expression accepts if and only if the pattern is
   * not collapsible.
   */
  lemma InclusionIffNotCollapsible(ts: seq<Token>)
    requires Lexed(ts) && ts != [] && Fits(ts) && Feasible(ts)
    ensures (forall p :: CleanPath(p) && Accepts(RegexParts(ts), p) ==> GlobFinds(ts, p)) <==> !Collapsible(ts)
  {
    if Collapsible(ts) {
      var env, p := WitnessExists(ts);
      WitnessAccepted(ts, env, p);
      WitnessNotFound(ts, env, p);
    } else {
      forall p | CleanPath(p) && Accepts(RegexParts(ts), p) ensures GlobFinds(ts, p) { Included(ts, p); }
    }
  }
}
