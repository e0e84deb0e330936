/**
 * nglob.py:22-30, 444-448: a named wildcard matches the same paths as the anonymous star it replaces.
 * This holds for names that are used once, unless they stand next to another wildcard that a star
 * would be merged with.
 */
module NGlobNames {
  import opened Basics
  import opened NGlobSymbols
  import opened NGlobRegex
  import opened NGlobMeaning

  predicate UsedOnce(ts: seq<Token>, i: nat)
    requires i < |ts|
  {
    ts[i].Named? && forall k :: 0 <= k < |ts| && ts[k] == ts[i] ==> k == i
  }

  /** Neighbours that would be merged, or that would no longer be, if the name were a star. */
  predicate Clash(a: Token, b: Token) {
    || (b.Named? && (a.Star? || a.Rec? || a.Named?))
    || (a.Named? && (b.Star? || b.Rec? || b.RecSlash? || b.Named?))
  }

  predicate Apart(ts: seq<Token>) {
    forall k :: 0 <= k < |ts| - 1 ==> !Clash(ts[k], ts[k + 1])
  }

  // ---- One name ----

  function AnonToken(t: Token, n: string): Token {
    if t == Named(n) then Star else t
  }

  function AnonTokens(ts: seq<Token>, n: string): (r: seq<Token>)
    ensures |r| == |ts|
  {
    seq(|ts|, i requires 0 <= i < |ts| => AnonToken(ts[i], n))
  }

  function AnonPart(p: Part, n: string): Part {
    if p.Group? && p.name == n then Stars(p.some) else p
  }

  function AnonParts(ps: seq<Part>, n: string): (r: seq<Part>)
    ensures |r| == |ps|
  {
    seq(|ps|, i requires 0 <= i < |ps| => AnonPart(ps[i], n))
  }

  /** The name occurs at most once. */
  predicate AtMostOnce(ts: seq<Token>, n: string) {
    forall j, k :: 0 <= j < k < |ts| ==> !(ts[j] == Named(n) && ts[k] == Named(n))
  }

  lemma {:induction false} SeenNames(ts: seq<Token>, n: string)
    ensures n in Build(ts).seen <==> Named(n) in ts
  {
    if ts != [] {
      SeenNames(ts[..|ts| - 1], n);
      assert ts == ts[..|ts| - 1] + [ts[|ts| - 1]];
    }
  }

  ghost predicate Corresponds(b: Builder, a: Builder, n: string) {
    && a.parts == AnonParts(b.parts, n)
    && a.seen == b.seen - {n}
    && a.last == (if b.last.Some? then Some(AnonToken(b.last.value, n)) else None)
  }

  lemma StepCorresponds(b: Builder, a: Builder, t: Token, n: string)
    requires Corresponds(b, a, n) && (b.last.Some? ==> !Clash(b.last.value, t))
    requires t == Named(n) ==> n !in b.seen
    ensures Corresponds(Step(b, t), Step(a, AnonToken(t, n)), n)
  {
    var c, d := Step(b, t), Step(a, AnonToken(t, n));
    assert |c.parts| == |d.parts|;
    assert forall k :: 0 <= k < |c.parts| ==> d.parts[k] == AnonPart(c.parts[k], n);
  }

  lemma {:induction false} BuildCorresponds(ts: seq<Token>, n: string)
    requires Apart(ts) && AtMostOnce(ts, n)
    ensures Corresponds(Build(ts), Build(AnonTokens(ts, n)), n)
  {
    if ts == [] {
      assert AnonTokens(ts, n) == [];
    } else {
      var init, t := ts[..|ts| - 1], ts[|ts| - 1];
      BuildCorresponds(init, n);
      assert AnonTokens(ts, n)[..|ts| - 1] == AnonTokens(init, n);
      LastIsRemembered(init);
      SeenNames(init, n);
      if |ts| > 1 { assert !Clash(ts[|ts| - 2], ts[|ts| - 2 + 1]); }
      StepCorresponds(Build(init), Build(AnonTokens(init, n)), t, n);
    }
  }

  lemma PostProcessCorresponds(ps: seq<Part>, n: string)
    ensures Trailing(Enclosed(AnonParts(ps, n), |ps|)) == AnonParts(Trailing(Enclosed(ps, |ps|)), n)
  {
    var e, f := Enclosed(ps, |ps|), Enclosed(AnonParts(ps, n), |ps|);
    assert f == AnonParts(e, n);
    assert LastIsStar(f) <==> LastIsStar(e);
    assert Guarded(f) <==> Guarded(e);
    assert |Trailing(f)| == |Trailing(e)|;
    assert forall k :: 0 <= k < |Trailing(e)| ==> Trailing(f)[k] == AnonPart(Trailing(e)[k], n);
  }

  // ---- The captured substring is free when nothing refers to it ----

  predicate Mentions(p: Part, n: string) {
    (p.Group? || p.BackRef?) && p.name == n
  }

  predicate Unmentioned(ps: seq<Part>, n: string) {
    forall k :: 0 <= k < |ps| ==> !Mentions(ps[k], n)
  }

  lemma OtherPiece(p: Part, env: Env, n: string, v: string, s: string)
    requires !Mentions(p, n) && Flat(PartSyms(p), env, s)
    ensures Flat(PartSyms(p), env[n := v], s)
  {
    if p.Lit? {
      CharsMatchThemselves(p.text, env, s);
      CharsMatchThemselves(p.text, env[n := v], s);
    } else {
      FlatOne(PartSyms(p)[0], env, s);
      FlatOne(PartSyms(p)[0], env[n := v], s);
    }
  }

  lemma {:induction false} OtherNames(ps: seq<Part>, env: Env, n: string, v: string, s: string)
    requires Unmentioned(ps, n) && Flat(PartsSyms(ps), env, s)
    ensures Flat(PartsSyms(ps), env[n := v], s)
  {
    if ps == [] {
      assert s == [];
    } else {
      var init, p := ps[..|ps| - 1], ps[|ps| - 1];
      assert ps == init + [p];
      var k := SnocPiece(init, p, env, s);
      OtherNames(init, env, n, v, s[..k]);
      OtherPiece(p, env, n, v, s[k..]);
      FromSnoc(init, p, env[n := v], s, k);
    }
  }

  lemma AnonPiece(p: Part, env: Env, n: string, s: string)
    requires Flat(PartSyms(p), env, s)
    ensures Flat(PartSyms(AnonPart(p, n)), env, s)
  {
    if p.Group? && p.name == n {
      FlatOne(PartSyms(p)[0], env, s);
      FlatOne(PartSyms(AnonPart(p, n))[0], env, s);
    }
  }

  lemma AnonAppend(init: seq<Part>, p: Part, n: string)
    ensures AnonParts(init + [p], n) == AnonParts(init, n) + [AnonPart(p, n)]
  {
  }

  lemma {:induction false} AnonAccepts(ps: seq<Part>, env: Env, n: string, s: string)
    requires Flat(PartsSyms(ps), env, s)
    ensures Flat(PartsSyms(AnonParts(ps, n)), env, s)
  {
    if ps == [] {
      assert AnonParts(ps, n) == [];
    } else {
      var init, p := ps[..|ps| - 1], ps[|ps| - 1];
      assert ps == init + [p];
      var k := SnocPiece(init, p, env, s);
      AnonAccepts(init, env, n, s[..k]);
      AnonPiece(p, env, n, s[k..]);
      FromSnoc(AnonParts(init, n), AnonPart(p, n), env, s, k);
      AnonAppend(init, p, n);
    }
  }

  lemma CaptureStar(before: seq<Part>, n: string, some: bool, after: seq<Part>, env: Env, s: string) returns (v: string)
    requires Unmentioned(before, n) && Unmentioned(after, n) && Flat(PartsSyms(before + [Stars(some)] + after), env, s)
    ensures Flat(PartsSyms(before + [Group(n, some)] + after), env[n := v], s)
  {
    var i, j := Pieces(before, Stars(some), after, env, s);
    v := s[i..j];
    OtherNames(before, env, n, v, s[..i]);
    OtherNames(after, env, n, v, s[j..]);
    FlatOne(Many(some), env, v);
    FlatOne(Var(n, some), env[n := v], v);
    FromPieces(before, Group(n, some), after, env[n := v], s, i, j);
  }

  /** At most one part mentions the name, and that part is its group. */
  predicate MentionedOnce(ps: seq<Part>, n: string) {
    && (forall k :: 0 <= k < |ps| ==> ps[k] != BackRef(n))
    && (forall j, k :: 0 <= j < k < |ps| ==> !(Mentions(ps[j], n) && Mentions(ps[k], n)))
  }

  lemma SplitAtMention(ps: seq<Part>, n: string, i: nat)
    requires MentionedOnce(ps, n) && i < |ps| && Mentions(ps[i], n)
    ensures Unmentioned(ps[..i], n) && Unmentioned(ps[i + 1..], n)
    ensures ps == ps[..i] + [Group(n, ps[i].some)] + ps[i + 1..]
    ensures AnonParts(ps, n) == ps[..i] + [Stars(ps[i].some)] + ps[i + 1..]
  {
  }

  lemma AnonIsSame(ps: seq<Part>, n: string, s: string)
    requires MentionedOnce(ps, n)
    ensures Accepts(ps, s) <==> Accepts(AnonParts(ps, n), s)
  {
    if env :| Flat(PartsSyms(ps), env, s) { AnonAccepts(ps, env, n, s); }
    if env :| Flat(PartsSyms(AnonParts(ps, n)), env, s) { AnonAcceptsNoMore(ps, env, n, s); }
  }

  lemma AnonAcceptsNoMore(ps: seq<Part>, env: Env, n: string, s: string)
    requires MentionedOnce(ps, n) && Flat(PartsSyms(AnonParts(ps, n)), env, s)
    ensures Accepts(ps, s)
  {
    if i: nat :| i < |ps| && Mentions(ps[i], n) {
      SplitAtMention(ps, n, i);
      var v := CaptureStar(ps[..i], n, ps[i].some, ps[i + 1..], env, s);
    } else {
      assert AnonParts(ps, n) == ps;
    }
  }

  lemma AppendMentions(parts: seq<Part>, p: Part, n: string)
    requires MentionedOnce(parts, n) && p != BackRef(n) && (Mentions(p, n) ==> Unmentioned(parts, n))
    ensures MentionedOnce(parts + [p], n)
    ensures !Mentions(p, n) && Unmentioned(parts, n) ==> Unmentioned(parts + [p], n)
  {
  }

  lemma FrontMentions(parts: seq<Part>, n: string)
    requires MentionedOnce(parts, n) && parts != []
    ensures MentionedOnce(parts[..|parts| - 1], n)
    ensures Unmentioned(parts, n) ==> Unmentioned(parts[..|parts| - 1], n)
  {
  }

  /** What one pass through the loop leaves in front, and the part that it writes. */
  lemma StepWrites(b: Builder, t: Token) returns (front: seq<Part>, p: Part)
    ensures front == b.parts || (b.parts != [] && front == b.parts[..|b.parts| - 1])
    ensures Step(b, t).parts == b.parts || Step(b, t).parts == front + [p]
    ensures p.BackRef? ==> t == Named(p.name) && p.name in b.seen
    ensures p.Group? ==> t == Named(p.name)
  {
    front := b.parts;
    match t
    case Text(text) => p := Lit(text);
    case One => p := NotSlash;
    case Star => p := Stars(false);
    case Rec =>
      p := Dots(false);
      if b.last == Some(Star) && b.parts != [] { front := b.parts[..|b.parts| - 1]; }
    case RecSlash =>
      p := OptDirs;
      if (b.last == Some(Star) || b.last == Some(Rec)) && b.parts != [] { front := b.parts[..|b.parts| - 1]; }
    case Class(regex, _) => p := CharClass(regex);
    case Named(name) => p := if name in b.seen then BackRef(name) else Group(name, false);
  }

  lemma StepMentions(b: Builder, t: Token, n: string)
    requires MentionedOnce(b.parts, n) && (n !in b.seen ==> Unmentioned(b.parts, n)) && (t == Named(n) ==> n !in b.seen)
    ensures MentionedOnce(Step(b, t).parts, n)
    ensures t != Named(n) && Unmentioned(b.parts, n) ==> Unmentioned(Step(b, t).parts, n)
  {
    var front, p := StepWrites(b, t);
    if b.parts != [] { FrontMentions(b.parts, n); }
    AppendMentions(front, p, n);
  }

  lemma {:induction false} BuildMentions(ts: seq<Token>, n: string)
    requires AtMostOnce(ts, n)
    ensures MentionedOnce(Build(ts).parts, n)
    ensures Named(n) !in ts ==> Unmentioned(Build(ts).parts, n)
  {
    if ts != [] {
      var init, t := ts[..|ts| - 1], ts[|ts| - 1];
      assert ts == init + [t];
      BuildMentions(init, n);
      SeenNames(init, n);
      if t == Named(n) { assert Named(n) !in init; }
      StepMentions(Build(init), t, n);
    }
  }

  lemma EnclosedMentions(ps: seq<Part>, n: string)
    requires MentionedOnce(ps, n)
    ensures MentionedOnce(Enclosed(ps, |ps|), n)
  {
    var e := Enclosed(ps, |ps|);
    assert forall k :: 0 <= k < |ps| ==>
             (Mentions(e[k], n) <==> Mentions(ps[k], n)) && (e[k] == BackRef(n) <==> ps[k] == BackRef(n));
  }

  lemma TrailingMentions(ps: seq<Part>, n: string)
    requires MentionedOnce(ps, n)
    ensures MentionedOnce(Trailing(ps), n)
  {
    var r := Trailing(ps);
    assert forall k :: 0 <= k < |ps| ==>
             (Mentions(r[k], n) <==> Mentions(ps[k], n)) && (r[k] == BackRef(n) <==> ps[k] == BackRef(n));
    assert |r| > |ps| ==> |r| == |ps| + 1 && r[|ps|] == OptSlash;
  }

  lemma OneNameIsStar(ts: seq<Token>, n: string, s: string)
    requires Apart(ts) && AtMostOnce(ts, n)
    ensures Accepts(RegexParts(ts), s) <==> Accepts(RegexParts(AnonTokens(ts, n)), s)
  {
    BuildCorresponds(ts, n);
    PostProcessCorresponds(Build(ts).parts, n);
    BuildMentions(ts, n);
    EnclosedMentions(Build(ts).parts, n);
    TrailingMentions(Enclosed(Build(ts).parts, |Build(ts).parts|), n);
    AnonIsSame(RegexParts(ts), n, s);
  }

  // ---- All of them ----

  function Anonymous(ts: seq<Token>): (r: seq<Token>)
    ensures |r| == |ts|
  {
    seq(|ts|, i requires 0 <= i < |ts| => if UsedOnce(ts, i) then Star else ts[i])
  }

  function NamedAt(ts: seq<Token>): set<nat> {
    set k: nat | k < |ts| && ts[k].Named?
  }

  lemma UsedOnceElsewhere(ts: seq<Token>, us: seq<Token>, i: nat, k: nat)
    requires i < |ts| && k < |ts| && k != i && UsedOnce(ts, i) && us == ts[i := Star]
    ensures UsedOnce(us, k) <==> UsedOnce(ts, k)
  {
    if UsedOnce(us, k) {
      assert ts[i] != ts[k];
      forall j | 0 <= j < |ts| && ts[j] == ts[k] ensures j == k { assert us[j] == us[k]; }
    }
    if UsedOnce(ts, k) {
      forall j | 0 <= j < |us| && us[j] == us[k] ensures j == k { assert ts[j] == ts[k]; }
    }
  }

  lemma {:induction false} NamesAreStars(ts: seq<Token>, s: string)
    requires Apart(ts)
    ensures Accepts(RegexParts(ts), s) <==> Accepts(RegexParts(Anonymous(ts)), s)
    decreases |NamedAt(ts)|
  {
    if i: nat :| i < |ts| && UsedOnce(ts, i) {
      var n := ts[i].name;
      var us := AnonTokens(ts, n);
      assert us == ts[i := Star];
      OneNameIsStar(ts, n, s);
      assert NamedAt(us) == NamedAt(ts) - {i};
      forall k: nat | k < |ts| && k != i ensures UsedOnce(us, k) <==> UsedOnce(ts, k) { UsedOnceElsewhere(ts, us, i, k); }
      assert Anonymous(us) == Anonymous(ts);
      NamesAreStars(us, s);
    } else {
      assert Anonymous(ts) == ts;
    }
  }
}
