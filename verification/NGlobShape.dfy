/** nglob.py: what both translations preserve of the structure of a pattern. */
module NGlobShape {
  import opened NGlobSymbols
  import opened NGlobRegex
  import opened NGlobGlob

  /** No class accepts a separator, and a class of the regular expression is no wider than the glob's. */
  ghost predicate Fits(ts: seq<Token>) {
    forall i :: 0 <= i < |ts| && ts[i].Class? ==> '/' !in ts[i].glob && ts[i].regex <= ts[i].glob
  }

  lemma SymsAppend(ts: seq<Token>, t: Token)
    ensures Syms(ts + [t]) == Syms(ts) + TokenSyms(t)
  {
    assert (ts + [t])[..|ts|] == ts;
  }

  lemma LexedAppend(ts: seq<Token>, t: Token)
    requires Lexed(ts) && (ts != [] ==> ts[|ts| - 1] != Rec)
    requires (t.Rec? || t.RecSlash? ==> AtStart(ts)) && (t.Text? ==> t.text != [])
    ensures Lexed(ts + [t])
  {
    assert (ts + [t])[..|ts|] == ts;
  }

  /** The last symbol of a pattern comes from its last token. */
  lemma LastSym(ts: seq<Token>)
    requires ts != [] && Lexed(ts)
    ensures Syms(ts) != []
    ensures var x, t := Syms(ts)[|Syms(ts)| - 1], ts[|ts| - 1];
            match t
            case Text(text) => x == Ch(text[|text| - 1])
            case One => x == AnyOne
            case Star => x == Many(false)
            case Rec => x == Deep(false)
            case RecSlash => x == Dirs
            case Class(regex, _) => x == In(regex)
            case Named(name) => x == Var(name, false)
  {
    var x := TokenSyms(ts[|ts| - 1]);
    assert Syms(ts)[|Syms(ts)| - 1] == x[|x| - 1];
  }

  lemma ShapedJoin(xs: seq<Sym>, ys: seq<Sym>)
    requires Shaped(xs) && Shaped(ys) && (xs != [] ==> !xs[|xs| - 1].Deep?)
    requires ys != [] && xs != [] && (ys[0].Deep? || ys[0].Dirs?) ==> xs[|xs| - 1] == Ch('/') || xs[|xs| - 1] == Dirs
    ensures Shaped(xs + ys)
  {
  }

  lemma TokenIsShaped(t: Token)
    requires t.Class? ==> '/' !in t.regex
    ensures Shaped(TokenSyms(t))
    ensures TokenSyms(t) != [] && (TokenSyms(t)[0].Deep? || TokenSyms(t)[0].Dirs?) ==> t.Rec? || t.RecSlash?
  {
  }

  /** How the symbols of a list end that another token may follow. */
  lemma EndsOpen(init: seq<Token>, t: Token)
    requires Lexed(init + [t]) && init != []
    ensures Syms(init) != [] && !Syms(init)[|Syms(init)| - 1].Deep?
    ensures t.Rec? || t.RecSlash? ==>
              Syms(init)[|Syms(init)| - 1] == Ch('/') || Syms(init)[|Syms(init)| - 1] == Dirs
  {
    assert (init + [t])[..|init|] == init;
    LastSym(init);
  }

  ghost predicate SmallClasses(ts: seq<Token>) {
    forall i :: 0 <= i < |ts| && ts[i].Class? ==> '/' !in ts[i].regex
  }

  lemma {:induction false} LexedIsShaped(ts: seq<Token>)
    requires Lexed(ts) && SmallClasses(ts)
    ensures Shaped(Syms(ts))
  {
    if ts != [] {
      var init, t := ts[..|ts| - 1], ts[|ts| - 1];
      assert ts == init + [t] && (t.Class? ==> '/' !in t.regex);
      LexedIsShaped(init);
      TokenIsShaped(t);
      if init != [] { EndsOpen(init, t); }
      ShapedJoin(Syms(init), TokenSyms(t));
    }
  }

  // ---- The merging loop of the glob converter ----

  predicate GlobMerges(texts: seq<Token>, t: Token) {
    texts != [] && texts[|texts| - 1] == t && (t.Star? || t.RecSlash?)
  }

  /** What the merged list keeps of the list itself: where it may go on, and its last token. */
  ghost predicate Follows(texts: seq<Token>, ts: seq<Token>) {
    && Lexed(texts) && (texts == [] <==> ts == []) && (AtStart(texts) <==> AtStart(ts))
    && (ts != [] ==> texts[|texts| - 1] == Substituted(ts[|ts| - 1]))
  }

  /** What stands before a fragment of a lexed pattern. */
  predicate MayPrecede(last: Token, t: Token) {
    last != Rec && (t.Rec? || t.RecSlash? ==> last != Star)
  }

  lemma LexedPrecedes(ts: seq<Token>)
    requires Lexed(ts) && |ts| > 1
    ensures MayPrecede(Substituted(ts[|ts| - 2]), Substituted(ts[|ts| - 1]))
  {
    var init := ts[..|ts| - 1];
    assert init[|init| - 1] == ts[|ts| - 2];
  }

  lemma StepAfter(texts: seq<Token>, t: Token)
    requires texts != [] ==> MayPrecede(texts[|texts| - 1], t)
    ensures GlobStep(texts, t) == if GlobMerges(texts, t) then texts else texts + [t]
  {
  }

  /** In a lexed pattern no star comes before `**`, so that a fragment is merged or appended. */
  lemma GlobStepMerges(texts: seq<Token>, ts: seq<Token>)
    requires Lexed(ts) && ts != [] && Follows(texts, ts[..|ts| - 1])
    ensures var t := Substituted(ts[|ts| - 1]);
            GlobStep(texts, t) == if GlobMerges(texts, t) then texts else texts + [t]
  {
    if texts != [] {
      LexedPrecedes(ts);
      assert ts[..|ts| - 1][|ts| - 2] == ts[|ts| - 2];
    }
    StepAfter(texts, Substituted(ts[|ts| - 1]));
  }

  lemma SameLastSameStart(texts: seq<Token>, ts: seq<Token>)
    requires texts != [] && ts != [] && texts[|texts| - 1] == Substituted(ts[|ts| - 1])
    ensures AtStart(texts) <==> AtStart(ts)
  {
  }

  /** What a token that is not merged may follow. */
  lemma AppendsLexed(texts: seq<Token>, ts: seq<Token>)
    requires Lexed(ts) && ts != [] && Follows(texts, ts[..|ts| - 1])
    ensures Lexed(texts + [Substituted(ts[|ts| - 1])])
  {
    LexedAppend(texts, Substituted(ts[|ts| - 1]));
  }

  lemma StepFollows(texts: seq<Token>, ts: seq<Token>)
    requires Lexed(ts) && ts != [] && Follows(texts, ts[..|ts| - 1])
    ensures Follows(GlobStep(texts, Substituted(ts[|ts| - 1])), ts)
  {
    var t := Substituted(ts[|ts| - 1]);
    GlobStepMerges(texts, ts);
    if GlobMerges(texts, t) {
      SameLastSameStart(texts, ts);
    } else {
      AppendsLexed(texts, ts);
      SameLastSameStart(texts + [t], ts);
    }
  }

  lemma {:induction false} GlobTokensFollow(ts: seq<Token>)
    requires Lexed(ts)
    ensures Follows(GlobTokens(ts), ts)
  {
    if ts != [] {
      GlobTokensFollow(ts[..|ts| - 1]);
      StepFollows(GlobTokens(ts[..|ts| - 1]), ts);
    }
  }

  lemma GlobTokensShape(ts: seq<Token>)
    requires Lexed(ts)
    ensures Follows(GlobTokens(ts), ts)
    ensures ts != [] ==> var before, t := GlobTokens(ts[..|ts| - 1]), Substituted(ts[|ts| - 1]);
              GlobTokens(ts) == if GlobMerges(before, t) then before else before + [t]
  {
    GlobTokensFollow(ts);
    if ts != [] {
      GlobTokensFollow(ts[..|ts| - 1]);
      GlobStepMerges(GlobTokens(ts[..|ts| - 1]), ts);
    }
  }

  lemma {:induction false} GlobTokensFit(ts: seq<Token>)
    requires Lexed(ts) && Fits(ts)
    ensures Fits(GlobTokens(ts))
    ensures forall i :: 0 <= i < |GlobTokens(ts)| ==> !GlobTokens(ts)[i].Named?
  {
    GlobTokensShape(ts);
    if ts != [] {
      assert Fits(ts[..|ts| - 1]);
      assert ts[|ts| - 1].Class? ==> '/' !in ts[|ts| - 1].glob;
      GlobTokensFit(ts[..|ts| - 1]);
    }
  }

  lemma {:induction false} NamelessHasNoVars(ts: seq<Token>)
    requires forall i :: 0 <= i < |ts| ==> !ts[i].Named?
    ensures NoVars(Syms(ts))
  {
    if ts != [] {
      assert !ts[|ts| - 1].Named?;
      NamelessHasNoVars(ts[..|ts| - 1]);
    }
  }

  lemma SubstitutedPiece(t: Token, env: Env, s: string)
    requires Flat(TokenSyms(t), env, s) && (t.Class? ==> t.regex <= t.glob)
    ensures Flat(TokenSyms(Substituted(t)), env, s)
  {
    if t.Class? || t.Named? {
      FlatOne(TokenSyms(t)[0], env, s);
      FlatOne(TokenSyms(Substituted(t))[0], env, s);
    }
  }

  lemma {:induction false} GlobIsWider(ts: seq<Token>, env: Env, s: string)
    requires Lexed(ts) && Fits(ts) && Flat(Syms(ts), env, s)
    ensures Flat(Syms(GlobTokens(ts)), env, s)
  {
    if ts != [] {
      var init, t := ts[..|ts| - 1], ts[|ts| - 1];
      assert Fits(init) && (t.Class? ==> t.regex <= t.glob);
      var k := FlatSplit(Syms(init), TokenSyms(t), env, s);
      GlobIsWider(init, env, s[..k]);
      SubstitutedPiece(t, env, s[k..]);
      WiderStep(ts, env, s, k);
    }
  }

  lemma FlatJoinAt(xs: seq<Sym>, ys: seq<Sym>, env: Env, s: string, k: nat)
    requires k <= |s| && Flat(xs, env, s[..k]) && Flat(ys, env, s[k..])
    ensures Flat(xs + ys, env, s)
  {
    FlatJoin(xs, ys, env, s[..k], s[k..]);
    assert s[..k] + s[k..] == s;
  }

  lemma MergedAccepts(init: seq<Token>, t: Token, env: Env, s: string)
    requires GlobMerges(init, t) && Flat(Syms(init) + TokenSyms(t), env, s)
    ensures Flat(Syms(init), env, s)
  {
    MergeKeepsMeaning(init, t);
  }

  lemma WiderStep(ts: seq<Token>, env: Env, s: string, k: nat)
    requires Lexed(ts) && ts != [] && k <= |s|
    requires Flat(Syms(GlobTokens(ts[..|ts| - 1])), env, s[..k])
    requires Flat(TokenSyms(Substituted(ts[|ts| - 1])), env, s[k..])
    ensures Flat(Syms(GlobTokens(ts)), env, s)
  {
    var before, t := GlobTokens(ts[..|ts| - 1]), Substituted(ts[|ts| - 1]);
    FlatJoinAt(Syms(before), TokenSyms(t), env, s, k);
    GlobStepSyms(ts);
    if GlobMerges(before, t) { MergedAccepts(before, t, env, s); }
  }

  // ---- Counting separators ----

  function Slashes(xs: seq<Sym>): nat {
    if xs == [] then 0 else (if xs[0] == Ch('/') then 1 else 0) + Slashes(xs[1..])
  }

  lemma {:induction false} SlashesJoin(xs: seq<Sym>, ys: seq<Sym>)
    ensures Slashes(xs + ys) == Slashes(xs) + Slashes(ys)
  {
    if xs == [] {
      assert xs + ys == ys;
    } else {
      assert (xs + ys)[1..] == xs[1..] + ys;
      SlashesJoin(xs[1..], ys);
    }
  }

  /** The symbols that one pass through the merging loop adds. */
  lemma GlobStepSyms(ts: seq<Token>)
    requires Lexed(ts) && ts != []
    ensures var before, t := GlobTokens(ts[..|ts| - 1]), Substituted(ts[|ts| - 1]);
            Syms(GlobTokens(ts)) == if GlobMerges(before, t) then Syms(before) else Syms(before) + TokenSyms(t)
  {
    GlobTokensShape(ts);
    SymsAppend(GlobTokens(ts[..|ts| - 1]), Substituted(ts[|ts| - 1]));
  }

  lemma TokenSlashes(t: Token)
    ensures Slashes(TokenSyms(Substituted(t))) == Slashes(TokenSyms(t))
    ensures !t.Text? ==> Slashes(TokenSyms(t)) == 0
  {
  }

  lemma {:induction false} MergingKeepsSlashes(ts: seq<Token>)
    requires Lexed(ts)
    ensures Slashes(Syms(GlobTokens(ts))) == Slashes(Syms(ts))
  {
    if ts != [] {
      var init, t := ts[..|ts| - 1], ts[|ts| - 1];
      MergingKeepsSlashes(init);
      GlobStepSyms(ts);
      TokenSlashes(t);
      SlashesJoin(Syms(init), TokenSyms(t));
      SlashesJoin(Syms(GlobTokens(init)), TokenSyms(Substituted(t)));
    }
  }

  function PlainCount(pattern: seq<Component>): nat {
    if pattern == [] then 0 else (if pattern[0].Plain? then 1 else 0) + PlainCount(pattern[1..])
  }

  /** Each separator ends a component, and unless the pattern ends in `**` there is one more. */
  lemma {:induction false} PlainPerSlash(xs: seq<Sym>)
    requires Shaped(xs)
    ensures PlainCount(Components(xs)) == Slashes(xs) + if xs != [] && xs[|xs| - 1].Deep? then 0 else 1
  {
    if xs == [] {
      assert PlainCount([]) == 0;
    } else {
      ShapedTail(xs);
      var r := Components(xs[1..]);
      if xs[0].Deep? {
        assert xs[1..] == [] && PlainCount([]) == 0;
      } else {
        PlainPerSlash(xs[1..]);
        if xs[0] == Dirs {
          assert ([AnyDirs] + r)[1..] == r;
        } else if xs[0] == Ch('/') {
          assert ([Plain([])] + r)[1..] == r;
        } else {
          FirstIsPlain(xs[1..]);
          assert ([Plain([xs[0]] + r[0].syms)] + r[1..])[1..] == r[1..];
        }
      }
    }
  }

  // ---- The last component ----

  function LastOf(pattern: seq<Component>): Component
    requires pattern != []
  {
    pattern[|pattern| - 1]
  }

  lemma LastOfJoined(front: seq<Component>, r: seq<Component>)
    requires r != []
    ensures LastOf(front + r) == LastOf(r)
  {
  }

  /** One more symbol at the front of the first component. */
  lemma LastOfLonger(x: Sym, r: seq<Component>)
    requires r != [] && r[0].Plain?
    ensures LastOf([Plain([x] + r[0].syms)] + r[1..]) == if |r| == 1 then Plain([x] + r[0].syms) else LastOf(r)
  {
  }

  lemma {:induction false} LastComponent(xs: seq<Sym>)
    requires Shaped(xs)
    ensures xs == [] || xs[|xs| - 1] == Ch('/') || xs[|xs| - 1] == Dirs ==> LastOf(Components(xs)) == Plain([])
    ensures xs != [] && (xs[|xs| - 1] == Ch('/') || xs[|xs| - 1] == Dirs) ==> |Components(xs)| > 1
    ensures xs != [] && xs[|xs| - 1].Deep? ==> LastOf(Components(xs)) == AnyDepth
    ensures xs != [] && Small(xs[|xs| - 1]) ==> LastOf(Components(xs)).Plain? && LastOf(Components(xs)).syms != []
  {
    if xs != [] {
      ShapedTail(xs);
      if !xs[0].Deep? {
        var r := Components(xs[1..]);
        LastComponent(xs[1..]);
        if xs[0] == Dirs {
          LastOfJoined([AnyDirs], r);
        } else if xs[0] == Ch('/') {
          LastOfJoined([Plain([])], r);
        } else {
          FirstIsPlain(xs[1..]);
          LastOfLonger(xs[0], r);
        }
      }
    }
  }
}
