/**
 * nglob.py: convert_nglob_to_glob, and what the glob module makes of the result: it matches a path
 * component by component, where `**` stands for any number of components and every other component of
 * the pattern for one nonempty name.
 */
module NGlobGlob {
  import opened NGlobSymbols
  import opened NGlobRegex

  // ---- The converter ----

  /** The default substitution, and the characters that the glob module accepts for a class. */
  function Substituted(t: Token): Token {
    match t
    case Named(_) => Star
    case Class(_, glob) => Class(glob, glob)
    case _ => t
  }

  /** One pass through the merging loop. */
  function GlobStep(texts: seq<Token>, part: Token): seq<Token> {
    if texts == [] || part == One then texts + [part]
    else
      var last := texts[|texts| - 1];
      match part
      case Star => if last == Star || last == Rec then texts else texts + [Star]
      case Rec =>
        if last == Star then texts[..|texts| - 1] + [Rec] else if last == Rec then texts else texts + [Rec]
      case RecSlash =>
        if last == Star || last == Rec then texts[..|texts| - 1] + [RecSlash]
        else if last == RecSlash then texts else texts + [RecSlash]
      case _ => texts + [part]
  }

  function GlobTokens(ts: seq<Token>): seq<Token> {
    if ts == [] then [] else GlobStep(GlobTokens(ts[..|ts| - 1]), Substituted(ts[|ts| - 1]))
  }

  method ConvertToGlob(ts: seq<Token>) returns (texts: seq<Token>)
    ensures texts == GlobTokens(ts)
  {
    texts := [];
    for i := 0 to |ts|
      invariant texts == GlobTokens(ts[..i])
    {
      assert ts[..i + 1][..i] == ts[..i] && ts[..i + 1][i] == ts[i];
      texts := GlobStep(texts, Substituted(ts[i]));
    }
    assert ts[..|ts|] == ts;
  }

  // ---- Components ----

  datatype Component = Plain(syms: seq<Sym>) | AnyDirs | AnyDepth

  /** The pattern split at its separators; `AnyDepth` is `**` at the end, `AnyDirs` anywhere else. */
  function Components(xs: seq<Sym>): (r: seq<Component>)
    ensures r != []
  {
    if xs == [] then [Plain([])]
    else if xs[0] == Dirs then [AnyDirs] + Components(xs[1..])
    else if xs[0].Deep? then [AnyDepth]
    else if xs[0] == Ch('/') then [Plain([])] + Components(xs[1..])
    else
      var r := Components(xs[1..]);
      if r[0].Plain? then [Plain([xs[0]] + r[0].syms)] + r[1..] else r
  }

  /** The names of a path; a trailing separator leaves an empty last name. */
  function Names(s: string): (r: seq<string>)
    ensures r != []
  {
    if s == [] then [[]]
    else if s[0] == '/' then [[]] + Names(s[1..])
    else
      var r := Names(s[1..]);
      [[s[0]] + r[0]] + r[1..]
  }

  /** Every name that the file system has is nonempty. */
  predicate NameMatch(c: seq<Sym>, name: string) {
    if c == [] then name == [] else name != [] && Flat(c, map[], name)
  }

  predicate GlobMatch(pattern: seq<Component>, names: seq<string>)
    decreases |pattern|, |names|
  {
    if pattern == [] then names == []
    else
      match pattern[0]
      case Plain(c) => names != [] && NameMatch(c, names[0]) && GlobMatch(pattern[1..], names[1..])
      case _ => GlobMatch(pattern[1..], names) || (names != [] && names[0] != [] && GlobMatch(pattern, names[1..]))
  }

  // ---- From the plain reading to components ----

  /** Recursive wildcards only where a component starts; no class accepts a separator. */
  ghost predicate Shaped(xs: seq<Sym>) {
    && (forall i :: 0 <= i < |xs| && xs[i].Deep? ==> i == |xs| - 1)
    && (forall i :: 0 < i < |xs| && (xs[i].Deep? || xs[i].Dirs?) ==> xs[i - 1] == Ch('/') || xs[i - 1] == Dirs)
    && (forall i :: 0 <= i < |xs| && xs[i].In? ==> '/' !in xs[i].chars)
    && (forall i :: 0 <= i < |xs| ==> xs[i] != MaybeSlash)
  }

  /** Like GlobMatch, but names may be empty, and the captured names are respected. */
  predicate Loose(pattern: seq<Component>, env: Env, names: seq<string>)
    decreases |pattern|, |names|
  {
    if pattern == [] then names == []
    else
      match pattern[0]
      case Plain(c) => names != [] && Flat(c, env, names[0]) && Loose(pattern[1..], env, names[1..])
      case AnyDirs => Loose(pattern[1..], env, names) || (names != [] && Loose(pattern, env, names[1..]))
      case AnyDepth => names != [] && |pattern| == 1
  }

  lemma {:induction false} NamesOfPiece(a: string, b: string)
    requires NoSlash(a)
    ensures Names(a + b) == [a + Names(b)[0]] + Names(b)[1..]
  {
    if a == [] {
      assert a + b == b && a + Names(b)[0] == Names(b)[0];
      assert Names(b) == [Names(b)[0]] + Names(b)[1..];
    } else {
      NamesOfPiece(a[1..], b);
      assert (a + b)[1..] == a[1..] + b;
      assert [a[0]] + (a[1..] + Names(b)[0]) == a + Names(b)[0];
    }
  }

  /** Names in front of the ones that match are taken by `**`. */
  lemma {:induction false} DirsTakeMore(pattern: seq<Component>, env: Env, d: string, b: string)
    requires pattern != [] && pattern[0] == AnyDirs && Loose(pattern, env, Names(b)) && (d == [] || EndsInSlash(d))
    ensures Loose(pattern, env, Names(d + b))
    decreases |d|
  {
    if d == [] {
      assert d + b == b;
    } else {
      var k := FirstSlash(d);
      var name, rest := d[..k], d[k + 1..];
      if rest != [] { assert rest[|rest| - 1] == d[|d| - 1]; }
      DirsTakeMore(pattern, env, rest, b);
      assert d + b == name + (['/'] + (rest + b));
      assert (['/'] + (rest + b))[1..] == rest + b;
      assert Names(['/'] + (rest + b)) == [[]] + Names(rest + b);
      NamesOfPiece(name, ['/'] + (rest + b));
      assert Names(d + b)[1..] == Names(rest + b);
    }
  }

  lemma FirstSlash(d: string) returns (k: nat)
    requires EndsInSlash(d)
    ensures k < |d| && d[k] == '/' && NoSlash(d[..k])
  {
    k := 0;
    while d[k] != '/'
      invariant k < |d| && NoSlash(d[..k])
      decreases |d| - k
    {
      k := k + 1;
    }
  }

  predicate Small(x: Sym) {
    match x
    case Ch(c) => c != '/'
    case Dirs => false
    case Deep(_) => false
    case MaybeSlash => false
    case In(chars) => '/' !in chars
    case _ => true
  }

  lemma SmallPiece(x: Sym, env: Env, s: string)
    requires Small(x) && SymMatch(x, env, s)
    ensures NoSlash(s)
  {
  }

  lemma ShapedTail(xs: seq<Sym>)
    requires Shaped(xs) && xs != []
    ensures Shaped(xs[1..])
    ensures Small(xs[0]) && |xs| > 1 ==> !xs[1].Dirs? && !xs[1].Deep?
    ensures xs[0].Deep? ==> |xs| == 1
    ensures xs[0] == Dirs || xs[0].Deep? || xs[0] == Ch('/') || Small(xs[0])
  {
  }

  lemma {:induction false} FirstIsPlain(xs: seq<Sym>)
    requires Shaped(xs) && (xs != [] ==> !xs[0].Dirs? && !xs[0].Deep?)
    ensures Components(xs)[0].Plain?
  {
    if xs != [] && xs[0] != Ch('/') {
      ShapedTail(xs);
      FirstIsPlain(xs[1..]);
    }
  }

  lemma {:induction false} ComponentsRead(xs: seq<Sym>, env: Env, s: string)
    requires Shaped(xs) && Flat(xs, env, s)
    ensures Loose(Components(xs), env, Names(s))
  {
    if xs == [] {
      assert Flat([], env, []);
      assert Names(s)[1..] == [] && Components(xs)[1..] == [];
    } else {
      ShapedTail(xs);
      var k := FlatUncons(xs, env, s);
      assert s == s[..k] + s[k..];
      if xs[0].Deep? {
      } else {
        ComponentsRead(xs[1..], env, s[k..]);
        var r := Components(xs[1..]);
        if xs[0] == Dirs {
          var all := [AnyDirs] + r;
          assert all[1..] == r;
          DirsTakeMore(all, env, s[..k], s[k..]);
        } else if xs[0] == Ch('/') {
          SeparatorReads(r, env, s);
        } else {
          FirstIsPlain(xs[1..]);
          SmallPiece(xs[0], env, s[..k]);
          SmallReads(xs[0], r, env, s[..k], s[k..]);
        }
      }
    }
  }

  lemma SeparatorReads(r: seq<Component>, env: Env, s: string)
    requires s != [] && s[0] == '/' && Loose(r, env, Names(s[1..]))
    ensures Loose([Plain([])] + r, env, Names(s))
  {
    assert Flat([], env, []);
    assert ([Plain([])] + r)[1..] == r && Names(s)[1..] == Names(s[1..]) && Names(s)[0] == [];
  }

  lemma SmallReads(x: Sym, r: seq<Component>, env: Env, a: string, b: string)
    requires r != [] && r[0].Plain? && NoSlash(a) && SymMatch(x, env, a) && Loose(r, env, Names(b))
    ensures Loose([Plain([x] + r[0].syms)] + r[1..], env, Names(a + b))
  {
    var p := [Plain([x] + r[0].syms)] + r[1..];
    NamesOfPiece(a, b);
    FlatCons(x, r[0].syms, env, a, Names(b)[0]);
    assert p[1..] == r[1..] && Names(a + b)[1..] == Names(b)[1..];
  }

  // ---- Nonempty names ----

  predicate AllNonempty(names: seq<string>) {
    forall k :: 0 <= k < |names| ==> names[k] != []
  }

  /** No name was captured into the symbols of the glob pattern. */
  predicate NoVars(xs: seq<Sym>) {
    forall k :: 0 <= k < |xs| ==> !xs[k].Var?
  }

  predicate NoVarsIn(pattern: seq<Component>) {
    forall i :: 0 <= i < |pattern| && pattern[i].Plain? ==> NoVars(pattern[i].syms)
  }

  lemma {:induction false} EnvUnused(xs: seq<Sym>, env: Env, s: string)
    requires NoVars(xs) && Flat(xs, env, s)
    ensures Flat(xs, map[], s)
  {
    if xs != [] {
      var k := FlatUncons(xs, env, s);
      EnvUnused(xs[1..], env, s[k..]);
      FlatFront(xs, map[], s, k);
    }
  }

  lemma PlainMatches(c: seq<Sym>, env: Env, name: string)
    requires NoVars(c) && Flat(c, env, name) && (name != [] || c == [])
    ensures NameMatch(c, name)
  {
    EnvUnused(c, env, name);
  }

  lemma {:induction false} LooseNonempty(pattern: seq<Component>, env: Env, names: seq<string>)
    requires Loose(pattern, env, names) && NoVarsIn(pattern) && AllNonempty(names)
    ensures GlobMatch(pattern, names)
    decreases |pattern|, |names|
  {
    if pattern != [] {
      match pattern[0]
      case Plain(c) =>
        PlainMatches(c, env, names[0]);
        LooseNonempty(pattern[1..], env, names[1..]);
      case AnyDirs =>
        if Loose(pattern[1..], env, names) { LooseNonempty(pattern[1..], env, names); }
        else { LooseNonempty(pattern, env, names[1..]); }
      case AnyDepth => DepthTakesAll(pattern, names);
    }
  }

  lemma {:induction false} DepthTakesAll(pattern: seq<Component>, names: seq<string>)
    requires |pattern| == 1 && pattern[0] == AnyDepth && AllNonempty(names)
    ensures GlobMatch(pattern, names)
    decreases |names|
  {
    if names != [] { DepthTakesAll(pattern, names[1..]); } else { assert GlobMatch(pattern[1..], names); }
  }

  /** A pattern that ends in a separator matches a path that does. */
  lemma {:induction false} LooseDirectory(pattern: seq<Component>, env: Env, names: seq<string>)
    requires Loose(pattern, env, names + [[]]) && NoVarsIn(pattern) && AllNonempty(names)
    requires pattern != [] && pattern[|pattern| - 1] == Plain([])
    ensures GlobMatch(pattern, names + [[]])
    decreases |pattern|, |names|
  {
    var all := names + [[]];
    if names != [] { assert all[1..] == names[1..] + [[]] && all[0] == names[0]; }
    match pattern[0]
    case Plain(c) =>
      if names == [] {
        assert all[1..] == [];
        LooseNeedsNames(pattern[1..], env);
      } else {
        PlainMatches(c, env, names[0]);
        LooseDirectory(pattern[1..], env, names[1..]);
      }
    case AnyDirs =>
      if Loose(pattern[1..], env, all) {
        LooseDirectory(pattern[1..], env, names);
      } else {
        if names == [] {
          assert all[1..] == [];
          LooseNeedsNames(pattern, env);
        }
        LooseDirectory(pattern, env, names[1..]);
      }
    case AnyDepth =>
  }

  lemma {:induction false} LooseNeedsNames(pattern: seq<Component>, env: Env)
    requires Loose(pattern, env, [])
    ensures pattern == [] || (pattern[|pattern| - 1] == AnyDirs)
    decreases |pattern|
  {
    if pattern != [] { LooseNeedsNames(pattern[1..], env); }
  }

  /** A pattern that ends in `**` matches the path without its trailing separator. */
  lemma {:induction false} LooseDepth(pattern: seq<Component>, env: Env, names: seq<string>)
    requires Loose(pattern, env, names + [[]]) && NoVarsIn(pattern) && AllNonempty(names)
    requires pattern != [] && pattern[|pattern| - 1] == AnyDepth
    ensures GlobMatch(pattern, names)
    decreases |pattern|, |names|
  {
    var all := names + [[]];
    if names != [] { assert all[1..] == names[1..] + [[]] && all[0] == names[0]; }
    match pattern[0]
    case Plain(c) =>
      if names == [] {
        assert all[1..] == [];
        LooseNeedsNames(pattern[1..], env);
      }
      PlainMatches(c, env, names[0]);
      LooseDepth(pattern[1..], env, names[1..]);
    case AnyDirs =>
      if Loose(pattern[1..], env, all) {
        LooseDepth(pattern[1..], env, names);
      } else {
        if names == [] {
          assert all[1..] == [];
          LooseNeedsNames(pattern, env);
        }
        LooseDepth(pattern, env, names[1..]);
      }
    case AnyDepth => DepthTakesAll(pattern, names);
  }
}
