/**
 * nglob.py: what the generated regular expression accepts, read off the fragments of the pattern: the path
 * splits into one piece for each fragment.
 */
module NGlobReading {
  import opened Basics
  import opened NGlobSymbols
  import opened NGlobRegex
  import opened NGlobMeaning
  import opened NGlobNames
  import opened NGlobNamesExact

  // ---- The plain reading ----

  /** What a fragment stands for. A name stands for the same text wherever it is used. */
  predicate StandsFor(t: Token, env: Env, x: string) {
    match t
    case Text(text) => x == text
    case One => |x| == 1 && x[0] != '/'
    case Star => '/' !in x
    case Rec => '\n' !in x
    case RecSlash => '\n' !in x && (x == "" || x[|x| - 1] == '/')
    case Class(regex, _) => |x| == 1 && x[0] in regex
    case Named(name) => name in env && x == env[name] && '/' !in x
  }

  function Concat(xs: seq<string>): string {
    if xs == [] then "" else Concat(xs[..|xs| - 1]) + xs[|xs| - 1]
  }

  ghost predicate Splits(ts: seq<Token>, env: Env, s: string, xs: seq<string>) {
    |xs| == |ts| && Concat(xs) == s && forall k :: 0 <= k < |ts| ==> StandsFor(ts[k], env, xs[k])
  }

  ghost predicate Reading(ts: seq<Token>, env: Env, s: string) {
    exists xs :: Splits(ts, env, s, xs)
  }

  lemma TokenStandsFor(t: Token, env: Env, x: string)
    ensures Flat(TokenSyms(t), env, x) <==> StandsFor(t, env, x)
  {
    if t.Text? {
      CharsMatchThemselves(t.text, env, x);
    } else {
      FlatOne(TokenSyms(t)[0], env, x);
    }
  }

  lemma {:induction false} PlainReading(ts: seq<Token>, env: Env, s: string)
    ensures Flat(Syms(ts), env, s) <==> Reading(ts, env, s)
  {
    if ts == [] {
      if Reading(ts, env, s) { var xs :| Splits(ts, env, s, xs); }
      if s == "" { assert Splits(ts, env, s, []); }
    } else {
      var init, t := ts[..|ts| - 1], ts[|ts| - 1];
      if Flat(Syms(ts), env, s) {
        var k := FlatSplit(Syms(init), TokenSyms(t), env, s);
        PlainReading(init, env, s[..k]);
        TokenStandsFor(t, env, s[k..]);
        var xs :| Splits(init, env, s[..k], xs);
        SplitsSnoc(ts, env, s, xs, k);
      }
      if xs :| Splits(ts, env, s, xs) {
        var a, x := xs[..|ts| - 1], xs[|ts| - 1];
        assert Splits(init, env, Concat(a), a);
        PlainReading(init, env, Concat(a));
        TokenStandsFor(t, env, x);
        FlatJoin(Syms(init), TokenSyms(t), env, Concat(a), x);
      }
    }
  }

  lemma SplitsSnoc(ts: seq<Token>, env: Env, s: string, xs: seq<string>, k: nat)
    requires ts != [] && k <= |s| && Splits(ts[..|ts| - 1], env, s[..k], xs) && StandsFor(ts[|ts| - 1], env, s[k..])
    ensures Reading(ts, env, s)
  {
    var all := xs + [s[k..]];
    assert all[..|xs|] == xs && s[..k] + s[k..] == s;
    assert Splits(ts, env, s, all);
  }

  // ---- The end of the pattern ----

  /** The pattern ends in a star, or in a name that it uses for the first time. */
  predicate EndsInWildcard(ts: seq<Token>) {
    ts != [] && (ts[|ts| - 1] == Star || (ts[|ts| - 1].Named? && forall k :: 0 <= k < |ts| - 1 ==> ts[k] != ts[|ts| - 1]))
  }

  /** This last wildcard, or the run of stars that it ends, starts at `n`, right after a separator in the text. */
  predicate StartsComponent(ts: seq<Token>, n: nat) {
    && 0 < n < |ts| && ts[n - 1].Text? && ts[n - 1].text != "" && ts[n - 1].text[|ts[n - 1].text| - 1] == '/'
    && (n == |ts| - 1 || forall k :: n <= k < |ts| ==> ts[k] == Star)
  }

  ghost predicate AsksForMore(ts: seq<Token>) {
    EndsInWildcard(ts) && exists n: nat :: StartsComponent(ts, n)
  }

  lemma {:induction false} RunMeans(ts: seq<Token>)
    ensures StarRun(ts) <==>
              exists n: nat :: StartsComponent(ts, n) && forall k :: n <= k < |ts| ==> ts[k] == Star
  {
    if ts != [] {
      var init := ts[..|ts| - 1];
      RunMeans(init);
      if StarRun(ts) {
        if EndsComponent(init) {
          assert StartsComponent(ts, |ts| - 1);
        } else {
          var n: nat :| StartsComponent(init, n) && forall k :: n <= k < |init| ==> init[k] == Star;
          assert StartsComponent(ts, n);
        }
      }
      if n: nat :| StartsComponent(ts, n) && forall k :: n <= k < |ts| ==> ts[k] == Star {
        if n < |ts| - 1 { assert StartsComponent(init, n) && forall k :: n <= k < |init| ==> init[k] == Star; }
      }
    }
  }

  lemma EndMeans(ts: seq<Token>)
    requires Lexed(ts) && ts != []
    ensures LastIsStar(Build(ts).parts) <==> EndsInWildcard(ts)
    ensures Guarded(Build(ts).parts) <==> AsksForMore(ts)
  {
    StarEnds(ts);
    GuardedMeans(ts);
    RunMeans(ts);
    if AsksForMore(ts) {
      var n: nat :| StartsComponent(ts, n);
      assert n < |ts| - 1 ==> ts[|ts| - 1] == Star;
    }
    if EndsComponent(ts[..|ts| - 1]) { assert StartsComponent(ts, |ts| - 1); }
  }

  /** Where the code asks for it, the last component is not empty. */
  ghost predicate ReadingWithEnd(ts: seq<Token>, env: Env, s: string) {
    Reading(ts, env, s) && (AsksForMore(ts) ==> s == "" || s[|s| - 1] != '/')
  }

  /**
   * On paths without empty components the regular expression accepts the plain reading of the pattern, with a
   * last component that is not empty if it is a wildcard on its own, and one more separator after a wildcard.
   */
  lemma RegexReadsPattern(ts: seq<Token>, env: Env, s: string)
    requires Lexed(ts) && ts != [] && forall k :: 0 < k < |s| && s[k] == '/' ==> s[k - 1] != '/'
    ensures Flat(PartsSyms(RegexParts(ts)), env, s) <==>
              || ReadingWithEnd(ts, env, s)
              || (EndsInWildcard(ts) && s != "" && s[|s| - 1] == '/' && ReadingWithEnd(ts, env, s[..|s| - 1]))
  {
    forall k | 0 <= k < |s| - 1 ensures !(s[k] == '/' && s[k + 1] == '/') { assert k + 1 > 0; }
    RegexMeaning(ts, env, s);
    EndMeans(ts);
    PlainReading(ts, env, s);
    if EndsInSlash(s) { PlainReading(ts, env, s[..|s| - 1]); }
  }

  // ---- Every path, also one with empty components ----

  /** The fragments, a star or a recursive wildcard only once where it is repeated. */
  function Merged(ts: seq<Token>): seq<Token> {
    if ts == [] then []
    else
      var m, t := Merged(ts[..|ts| - 1]), ts[|ts| - 1];
      if m != [] && m[|m| - 1] == t && (t == Star || t == RecSlash) then m else m + [t]
  }

  /** A star or the first use of a name, right between two separators or after the last one. */
  predicate FillsComponent(m: seq<Token>, k: nat) {
    && 0 < k < |m| && (m[k] == Star || (m[k].Named? && forall j :: 0 <= j < k ==> m[j] != m[k]))
    && m[k - 1].Text? && m[k - 1].text != "" && m[k - 1].text[|m[k - 1].text| - 1] == '/'
    && (k == |m| - 1 || (m[k + 1].Text? && m[k + 1].text != "" && m[k + 1].text[0] == '/'))
  }

  ghost predicate Fills(m: seq<Token>, env: Env, s: string, xs: seq<string>) {
    Splits(m, env, s, xs) && forall k: nat :: k < |m| && FillsComponent(m, k) ==> xs[k] != ""
  }

  /** The plain reading in which no star or name stands for an empty component. */
  ghost predicate FilledReading(m: seq<Token>, env: Env, s: string) {
    exists xs :: Fills(m, env, s, xs)
  }

  /** The part that the loop writes for the `k`-th fragment. */
  predicate IsPartOf(p: Part, m: seq<Token>, k: nat)
    requires k < |m|
  {
    match m[k]
    case Text(text) => p == Lit(text)
    case One => p == NotSlash
    case Star => p == Stars(false)
    case Rec => p == Dots(false)
    case RecSlash => p == OptDirs
    case Class(regex, _) => p == CharClass(regex)
    case Named(name) => p == if m[k] in m[..k] then BackRef(name) else Group(name, false)
  }

  ghost predicate PartsFor(ps: seq<Part>, m: seq<Token>) {
    |ps| == |m| && forall k :: 0 <= k < |m| ==> IsPartOf(ps[k], m, k)
  }

  lemma {:induction false} MergedMembers(ts: seq<Token>, t: Token)
    ensures t in Merged(ts) <==> t in ts
    ensures (Merged(ts) == [] <==> ts == []) && (ts != [] ==> Merged(ts)[|Merged(ts)| - 1] == ts[|ts| - 1])
  {
    if ts != [] {
      MergedMembers(ts[..|ts| - 1], t);
      assert ts == ts[..|ts| - 1] + [ts[|ts| - 1]];
    }
  }

  /** One more part for one more fragment. */
  lemma NextPart(b: Builder, m: seq<Token>, ts: seq<Token>)
    requires Lexed(ts) && ts != [] && b.last == (if |ts| == 1 then None else Some(ts[|ts| - 2]))
    requires !Merges(b.last, ts[|ts| - 1]) && PartsFor(b.parts, m)
    requires ts[|ts| - 1].Named? ==> (ts[|ts| - 1].name in b.seen <==> ts[|ts| - 1] in m)
    ensures PartsFor(Step(b, ts[|ts| - 1]).parts, m + [ts[|ts| - 1]])
  {
    var t := ts[|ts| - 1];
    var parts, all := Step(b, t).parts, m + [t];
    StepAppends(b, ts);
    assert all[..|m|] == m;
    NewPart(b, ts);
    forall k | 0 <= k < |all| ensures IsPartOf(parts[k], all, k) {
      if k < |m| {
        assert parts[k] == b.parts[k] && IsPartOf(b.parts[k], m, k);
        assert all[..k] == m[..k];
      }
    }
  }

  lemma NewPart(b: Builder, ts: seq<Token>)
    requires Lexed(ts) && ts != [] && b.last == (if |ts| == 1 then None else Some(ts[|ts| - 2]))
    requires !Merges(b.last, ts[|ts| - 1])
    ensures var t := ts[|ts| - 1];
            && |Step(b, t).parts| == |b.parts| + 1
            && Step(b, t).parts[|b.parts|] ==
                 match t
                 case Text(text) => Lit(text)
                 case One => NotSlash
                 case Star => Stars(false)
                 case Rec => Dots(false)
                 case RecSlash => OptDirs
                 case Class(regex, _) => CharClass(regex)
                 case Named(name) => if name in b.seen then BackRef(name) else Group(name, false)
  {
    StepAppends(b, ts);
  }

  lemma {:induction false} BuildsParts(ts: seq<Token>)
    requires Lexed(ts)
    ensures PartsFor(Build(ts).parts, Merged(ts))
  {
    if ts != [] {
      var init, t := ts[..|ts| - 1], ts[|ts| - 1];
      BuildsParts(init);
      MergedMembers(init, t);
      LastIsRemembered(init);
      if t.Named? { SeenNames(init, t.name); }
      if Merges(Build(init).last, t) {
        StepAppends(Build(init), ts);
      } else {
        NextPart(Build(init), Merged(init), ts);
      }
    }
  }

  // ---- Pieces of a list of parts ----

  ghost predicate PartPieces(ps: seq<Part>, env: Env, s: string, xs: seq<string>) {
    |xs| == |ps| && Concat(xs) == s && forall k :: 0 <= k < |ps| ==> Flat(PartSyms(ps[k]), env, xs[k])
  }

  lemma {:induction false} IntoPieces(ps: seq<Part>, env: Env, s: string) returns (xs: seq<string>)
    requires Flat(PartsSyms(ps), env, s)
    ensures PartPieces(ps, env, s, xs)
  {
    if ps == [] {
      xs := [];
    } else {
      var init, p := ps[..|ps| - 1], ps[|ps| - 1];
      assert ps == init + [p];
      var k := SnocPiece(init, p, env, s);
      var rest := IntoPieces(init, env, s[..k]);
      xs := rest + [s[k..]];
      assert xs[..|rest|] == rest && s[..k] + s[k..] == s;
    }
  }

  lemma {:induction false} OutOfPieces(ps: seq<Part>, env: Env, s: string, xs: seq<string>)
    requires PartPieces(ps, env, s, xs)
    ensures Flat(PartsSyms(ps), env, s)
  {
    if ps != [] {
      var init, p := ps[..|ps| - 1], ps[|ps| - 1];
      var a, x := xs[..|ps| - 1], xs[|ps| - 1];
      assert ps == init + [p];
      OutOfPieces(init, env, Concat(a), a);
      assert s[..|Concat(a)|] == Concat(a) && s[|Concat(a)|..] == x;
      FromSnoc(init, p, env, s, |Concat(a)|);
    }
  }

  /** What the expression has for the `k`-th fragment, before the optional separator at its end. */
  function FinalPart(ps: seq<Part>, k: nat): Part
    requires k < |ps|
  {
    if IsEnclosed(ps, k) || (k == |ps| - 1 && Guarded(ps)) then Plus(ps[k]) else ps[k]
  }

  function FinalParts(ps: seq<Part>): (r: seq<Part>)
    ensures |r| == |ps|
  {
    seq(|ps|, k requires 0 <= k < |ps| => FinalPart(ps, k))
  }

  lemma TrailingIsFinal(ps: seq<Part>)
    ensures Trailing(Enclosed(ps, |ps|)) == FinalParts(ps) + if LastIsStar(ps) then [OptSlash] else []
  {
    var e := Enclosed(ps, |ps|);
    EnclosedShape(ps);
    if LastIsStar(ps) {
      var last := if Guarded(e) then Plus(e[|e| - 1]) else e[|e| - 1];
      assert FinalParts(ps) == e[..|e| - 1] + [last];
    } else {
      assert FinalParts(ps) == e;
    }
  }

  lemma PieceOfFinalPart(ps: seq<Part>, m: seq<Token>, k: nat, env: Env, x: string)
    requires PartsFor(ps, m) && k < |m| && (forall j :: 0 <= j < |m| - 1 ==> m[j] != Rec)
    ensures Flat(PartSyms(FinalPart(ps, k)), env, x) <==> StandsFor(m[k], env, x) && (FillsComponent(m, k) ==> x != "")
  {
    assert IsPartOf(ps[k], m, k);
    TokenStandsFor(m[k], env, x);
    assert PartSyms(ps[k]) == TokenSyms(m[k]);
    PlusPiece(ps[k], env, x);
    FillsMeans(ps, m, k);
  }

  lemma FillsMeans(ps: seq<Part>, m: seq<Token>, k: nat)
    requires PartsFor(ps, m) && k < |m| && (forall j :: 0 <= j < |m| - 1 ==> m[j] != Rec)
    ensures FillsComponent(m, k) <==>
              (ps[k].Stars? || ps[k].Group?) && (IsEnclosed(ps, k) || (k == |ps| - 1 && Guarded(ps)))
    ensures !(ps[k].Stars? || ps[k].Group?) ==> FinalPart(ps, k) == ps[k]
  {
    assert IsPartOf(ps[k], m, k);
    if k > 0 { assert IsPartOf(ps[k - 1], m, k - 1); }
    if k + 1 < |m| { assert IsPartOf(ps[k + 1], m, k + 1); }
  }

  lemma {:induction false} MergedKeepsRec(ts: seq<Token>)
    requires Lexed(ts)
    ensures forall j :: 0 <= j < |Merged(ts)| - 1 ==> Merged(ts)[j] != Rec
  {
    if ts != [] {
      MergedKeepsRec(ts[..|ts| - 1]);
      MergedMembers(ts[..|ts| - 1], Rec);
    }
  }

  lemma FinalPartsRead(ps: seq<Part>, m: seq<Token>, env: Env, s: string)
    requires PartsFor(ps, m) && (forall j :: 0 <= j < |m| - 1 ==> m[j] != Rec)
    ensures Flat(PartsSyms(FinalParts(ps)), env, s) <==> FilledReading(m, env, s)
  {
    forall xs ensures PartPieces(FinalParts(ps), env, s, xs) <==> Fills(m, env, s, xs) {
      if |xs| == |m| {
        forall k: nat | k < |m|
          ensures Flat(PartSyms(FinalParts(ps)[k]), env, xs[k])
                  <==> StandsFor(m[k], env, xs[k]) && (FillsComponent(m, k) ==> xs[k] != "")
        {
          PieceOfFinalPart(ps, m, k, env, xs[k]);
        }
      }
    }
    if Flat(PartsSyms(FinalParts(ps)), env, s) { var xs := IntoPieces(FinalParts(ps), env, s); }
    if xs :| PartPieces(FinalParts(ps), env, s, xs) { OutOfPieces(FinalParts(ps), env, s, xs); }
  }

  /**
   * What the regular expression accepts, for every string: the reading of the pattern in which no star or name
   * stands for an empty component, and after a wildcard at the end one more separator.
   */
  lemma RegexReadsAnyPath(ts: seq<Token>, env: Env, s: string)
    requires Lexed(ts) && ts != []
    ensures Flat(PartsSyms(RegexParts(ts)), env, s) <==>
              || FilledReading(Merged(ts), env, s)
              || (EndsInWildcard(ts) && s != "" && s[|s| - 1] == '/' && FilledReading(Merged(ts), env, s[..|s| - 1]))
  {
    EndMeans(ts);
    FinalMeans(ts, env, s);
    FinalReads(ts, env, s);
    if EndsInSlash(s) { FinalReads(ts, env, s[..|s| - 1]); }
  }

  lemma FinalReads(ts: seq<Token>, env: Env, s: string)
    requires Lexed(ts) && ts != []
    ensures Flat(PartsSyms(FinalParts(Build(ts).parts)), env, s) <==> FilledReading(Merged(ts), env, s)
  {
    BuildsParts(ts);
    MergedKeepsRec(ts);
    FinalPartsRead(Build(ts).parts, Merged(ts), env, s);
  }

  lemma FinalMeans(ts: seq<Token>, env: Env, s: string)
    ensures var ps := Build(ts).parts;
            Flat(PartsSyms(RegexParts(ts)), env, s) <==>
              || Flat(PartsSyms(FinalParts(ps)), env, s)
              || (LastIsStar(ps) && EndsInSlash(s) && Flat(PartsSyms(FinalParts(ps)), env, s[..|s| - 1]))
  {
    var ps := Build(ts).parts;
    TrailingIsFinal(ps);
    if LastIsStar(ps) {
      WithOptSlash(FinalParts(ps), env, s);
    } else {
      assert FinalParts(ps) + [] == FinalParts(ps);
    }
  }

  lemma WithOptSlash(ps: seq<Part>, env: Env, s: string)
    ensures Flat(PartsSyms(ps + [OptSlash]), env, s) <==>
              Flat(PartsSyms(ps), env, s) || (EndsInSlash(s) && Flat(PartsSyms(ps), env, s[..|s| - 1]))
  {
    PartsSymsAppend(ps, OptSlash);
    OptionalSlash(PartsSyms(ps), env, s);
  }
}
