/** nglob.py: convert_nglob_to_regex, for the default substitution of every name. */
module NGlobRegex {
  import opened Basics
  import opened NGlobSymbols

  /**
   * A fragment of a pattern. A class carries the characters that its translation accepts in the regular
   * expression, and those that the glob module accepts.
   */
  datatype Token =
    | Text(text: string)
    | One
    | Star
    | Rec
    | RecSlash
    | Class(regex: set<char>, glob: set<char>)
    | Named(name: string)

  predicate AtStart(ts: seq<Token>) {
    ts == [] || ts[|ts| - 1] == RecSlash || (ts[|ts| - 1].Text? && EndsInSlash(ts[|ts| - 1].text))
  }

  /** What splitting a pattern at its wildcards yields: `**` only as a complete component. */
  predicate Lexed(ts: seq<Token>) {
    ts == []
    || (var init, t := ts[..|ts| - 1], ts[|ts| - 1];
        && Lexed(init) && (init != [] ==> init[|init| - 1] != Rec)
        && (t.Rec? || t.RecSlash? ==> AtStart(init))
        && (t.Text? ==> t.text != []))
  }

  function TokenSyms(t: Token): seq<Sym> {
    match t
    case Text(text) => Chars(text)
    case One => [AnyOne]
    case Star => [Many(false)]
    case Rec => [Deep(false)]
    case RecSlash => [Dirs]
    case Class(regex, _) => [In(regex)]
    case Named(name) => [Var(name, false)]
  }

  /** The plain reading of a pattern: no merging, no special treatment of complete components. */
  function Syms(ts: seq<Token>): seq<Sym> {
    if ts == [] then [] else Syms(ts[..|ts| - 1]) + TokenSyms(ts[|ts| - 1])
  }

  // ---- The regular expression ----

  datatype Part =
    | Lit(text: string)
    | NotSlash
    | Stars(some: bool)                // [^/]* and [^/]+
    | Dots(some: bool)                 // .* and .+
    | OptDirs                          // (?:.*/|)
    | CharClass(chars: set<char>)
    | Group(name: string, some: bool)  // (?P<name>[^/]*) and (?P<name>[^/]+)
    | BackRef(name: string)            // (?P=name)
    | OptSlash                         // /?

  function PartSyms(p: Part): seq<Sym> {
    match p
    case Lit(text) => Chars(text)
    case NotSlash => [AnyOne]
    case Stars(some) => [Many(some)]
    case Dots(some) => [Deep(some)]
    case OptDirs => [Dirs]
    case CharClass(chars) => [In(chars)]
    case Group(name, some) => [Var(name, some)]
    case BackRef(name) => [Var(name, false)]
    case OptSlash => [MaybeSlash]
  }

  function PartsSyms(ps: seq<Part>): seq<Sym> {
    if ps == [] then [] else PartsSyms(ps[..|ps| - 1]) + PartSyms(ps[|ps| - 1])
  }

  ghost predicate Accepts(ps: seq<Part>, s: string) {
    exists env :: Flat(PartsSyms(ps), env, s)
  }

  datatype Builder = Builder(parts: seq<Part>, last: Option<Token>, seen: set<string>)

  function Push(parts: seq<Part>, p: Part, replace: bool): seq<Part> {
    if replace && parts != [] then parts[..|parts| - 1] + [p] else parts + [p]
  }

  /** One pass through the body of the loop. A name seen before becomes a back-reference. */
  function Step(b: Builder, t: Token): Builder {
    var parts :=
      match t
      case Text(text) => b.parts + [Lit(text)]
      case One => b.parts + [NotSlash]
      case Star => if b.last == Some(Star) || b.last == Some(Rec) then b.parts else b.parts + [Stars(false)]
      case Rec => if b.last == Some(Rec) then b.parts else Push(b.parts, Dots(false), b.last == Some(Star))
      case RecSlash =>
        if b.last == Some(RecSlash) then b.parts
        else Push(b.parts, OptDirs, b.last == Some(Star) || b.last == Some(Rec))
      case Class(regex, _) => b.parts + [CharClass(regex)]
      case Named(name) => b.parts + [if name in b.seen then BackRef(name) else Group(name, false)];
    Builder(parts, Some(t), if t.Named? then b.seen + {t.name} else b.seen)
  }

  function Build(ts: seq<Token>): Builder {
    if ts == [] then Builder([], None, {}) else Step(Build(ts[..|ts| - 1]), ts[|ts| - 1])
  }

  predicate EndsWithSlash(p: Part) { p.Lit? && EndsInSlash(p.text) }

  predicate StartsWithSlash(p: Part) { p.Lit? && StartsInSlash(p.text) }

  function Plus(p: Part): Part {
    match p
    case Stars(_) => Stars(true)
    case Dots(_) => Dots(true)
    case Group(name, _) => Group(name, true)
    case _ => p
  }

  predicate IsEnclosed(ps: seq<Part>, i: nat)
    requires i < |ps|
  {
    0 < i < |ps| - 1 && EndsWithSlash(ps[i - 1]) && StartsWithSlash(ps[i + 1])
  }

  /** The parts after `n` passes through the loop that treats the enclosed wildcards. */
  function Enclosed(ps: seq<Part>, n: nat): (r: seq<Part>)
    requires n <= |ps|
    ensures |r| == |ps|
  {
    seq(|ps|, i requires 0 <= i < |ps| => if i < n && IsEnclosed(ps, i) then Plus(ps[i]) else ps[i])
  }

  predicate LastIsStar(ps: seq<Part>) {
    ps != [] && (ps[|ps| - 1].Stars? || ps[|ps| - 1].Group?)
  }

  /** The trailing wildcard makes up the last component on its own, as far as the code can see. */
  predicate Guarded(ps: seq<Part>) {
    LastIsStar(ps) && |ps| >= 2 && EndsWithSlash(ps[|ps| - 2])
  }

  function Trailing(ps: seq<Part>): seq<Part> {
    if !LastIsStar(ps) then ps
    else
      var last := if Guarded(ps) then Plus(ps[|ps| - 1]) else ps[|ps| - 1];
      ps[..|ps| - 1] + [last] + [OptSlash]
  }

  function RegexParts(ts: seq<Token>): seq<Part> {
    var ps := Build(ts).parts;
    Trailing(Enclosed(ps, |ps|))
  }

  /** The converter itself; an empty pattern and an empty name are errors. */
  method ConvertToRegex(ts: seq<Token>) returns (r: Option<seq<Part>>)
    ensures r.None? <==> ts == [] || exists i :: 0 <= i < |ts| && ts[i] == Named("")
    ensures r.Some? ==> r.value == RegexParts(ts)
  {
    if ts == [] {
      return None;
    }
    var parts: seq<Part>, last, seen := [], None, {};
    for i := 0 to |ts|
      invariant Builder(parts, last, seen) == Build(ts[..i])
      invariant forall k :: 0 <= k < i ==> ts[k] != Named("")
    {
      if ts[i] == Named("") {
        return None;
      }
      assert ts[..i + 1] == ts[..i] + [ts[i]];
      var next := Step(Builder(parts, last, seen), ts[i]);
      parts, last, seen := next.parts, next.last, next.seen;
    }
    assert ts[..|ts|] == ts;
    parts := PostProcess(parts);
    r := Some(parts);
  }

  /** Overwrites the list while it walks over it; neighbours that were overwritten already do not matter. */
  method PostProcess(ps: seq<Part>) returns (parts: seq<Part>)
    ensures parts == Trailing(Enclosed(ps, |ps|))
  {
    parts := ps;
    for i := 0 to |ps|
      invariant parts == Enclosed(ps, i)
    {
      if 0 < i < |parts| - 1 && EndsWithSlash(parts[i - 1]) && StartsWithSlash(parts[i + 1]) {
        parts := parts[i := Plus(parts[i])];
      }
    }
    parts := Trailing(parts);
  }

  // ---- Merging keeps the meaning ----

  lemma PartsSymsAppend(ps: seq<Part>, p: Part)
    ensures PartsSyms(ps + [p]) == PartsSyms(ps) + PartSyms(p)
  {
    assert (ps + [p])[..|ps|] == ps;
  }

  lemma {:induction false} PartsSymsJoin(ps: seq<Part>, qs: seq<Part>)
    ensures PartsSyms(ps + qs) == PartsSyms(ps) + PartsSyms(qs)
  {
    if qs == [] {
      assert ps + qs == ps;
    } else {
      var n := |qs| - 1;
      PartsSymsJoin(ps, qs[..n]);
      assert (ps + qs)[..|ps + qs| - 1] == ps + qs[..n];
      Regroup(PartsSyms(ps), PartsSyms(qs[..n]), PartSyms(qs[n]));
    }
  }

  lemma LastIsRemembered(ts: seq<Token>)
    ensures Build(ts).last == if ts == [] then None else Some(ts[|ts| - 1])
  {
  }

  predicate Merges(last: Option<Token>, t: Token) {
    last == Some(t) && (t.Star? || t.RecSlash?)
  }

  /** No star comes before `**`, so that the code's replacement of one by the other is never needed. */
  lemma StepAppends(b: Builder, ts: seq<Token>)
    requires Lexed(ts) && ts != []
    requires b.last == if |ts| == 1 then None else Some(ts[|ts| - 2])
    ensures var t := ts[|ts| - 1];
            if Merges(b.last, t) then Step(b, t).parts == b.parts
            else |Step(b, t).parts| == |b.parts| + 1 && Step(b, t).parts[..|b.parts|] == b.parts
                 && PartSyms(Step(b, t).parts[|b.parts|]) == TokenSyms(t)
  {
    assert |ts| > 1 ==> ts[..|ts| - 1][|ts| - 2] == ts[|ts| - 2];
  }

  lemma MergeKeepsMeaning(init: seq<Token>, t: Token)
    requires init != [] && init[|init| - 1] == t && (t.Star? || t.RecSlash?)
    ensures Same(Syms(init), Syms(init) + TokenSyms(t))
  {
    RepeatChangesNothing(Syms(init[..|init| - 1]), TokenSyms(t)[0]);
  }

  lemma AppendKeepsMeaning(parts: seq<Part>, p: Part, init: seq<Token>, t: Token)
    requires Same(PartsSyms(parts), Syms(init)) && PartSyms(p) == TokenSyms(t)
    ensures Same(PartsSyms(parts + [p]), Syms(init) + TokenSyms(t))
  {
    PartsSymsAppend(parts, p);
    SameAppend(PartsSyms(parts), Syms(init), TokenSyms(t));
  }

  lemma {:induction false} BuildKeepsMeaning(ts: seq<Token>)
    requires Lexed(ts)
    ensures Same(PartsSyms(Build(ts).parts), Syms(ts))
  {
    if ts != [] {
      var init, t := ts[..|ts| - 1], ts[|ts| - 1];
      BuildKeepsMeaning(init);
      LastIsRemembered(init);
      var parts := Build(init).parts;
      StepAppends(Build(init), ts);
      if Merges(Build(init).last, t) {
        MergeKeepsMeaning(init, t);
      } else {
        var p := Build(ts).parts[|parts|];
        assert Build(ts).parts == parts + [p];
        AppendKeepsMeaning(parts, p, init, t);
      }
    }
  }
}
