/**
 * nglob.py: the meaning of patterns. Both translations of a named glob become lists of symbols, and a
 * list of symbols accepts a string when the string splits into pieces, one for each symbol.
 */
module NGlobSymbols {

  /**
   * `some` asks for a nonempty piece. `Dirs` is a recursive wildcard with its separator, `Deep` one at the
   * end of a pattern. The dot of a regular expression does not accept a newline.
   */
  datatype Sym =
    | Ch(c: char)
    | AnyOne
    | In(chars: set<char>)
    | Many(some: bool)
    | Var(name: string, some: bool)
    | Dirs
    | Deep(some: bool)
    | MaybeSlash

  /** The substrings captured for the names. */
  type Env = map<string, string>

  predicate NoSlash(s: string) {
    forall k :: 0 <= k < |s| ==> s[k] != '/'
  }

  predicate OneLine(s: string) {
    forall k :: 0 <= k < |s| ==> s[k] != '\n'
  }

  predicate EndsInSlash(s: string) {
    s != [] && s[|s| - 1] == '/'
  }

  predicate StartsInSlash(s: string) {
    s != [] && s[0] == '/'
  }

  predicate SymMatch(x: Sym, env: Env, s: string) {
    match x
    case Ch(c) => s == [c]
    case AnyOne => |s| == 1 && s[0] != '/'
    case In(chars) => |s| == 1 && s[0] in chars
    case Many(some) => NoSlash(s) && (some ==> s != [])
    case Var(name, some) => name in env && s == env[name] && NoSlash(s) && (some ==> s != [])
    case Dirs => OneLine(s) && (s == [] || EndsInSlash(s))
    case Deep(some) => OneLine(s) && (some ==> s != [])
    case MaybeSlash => s == [] || s == ['/']
  }

  predicate Cut(x: Sym, rest: seq<Sym>, env: Env, s: string, k: nat)
    decreases |rest|, 1
  {
    k <= |s| && SymMatch(x, env, s[..k]) && Flat(rest, env, s[k..])
  }

  predicate Flat(xs: seq<Sym>, env: Env, s: string)
    decreases |xs|, 0
  {
    if xs == [] then s == []
    else exists k: nat :: k <= |s| && Cut(xs[0], xs[1..], env, s, k)
  }

  lemma FlatCons(x: Sym, xs: seq<Sym>, env: Env, a: string, b: string)
    requires SymMatch(x, env, a) && Flat(xs, env, b)
    ensures Flat([x] + xs, env, a + b)
  {
    assert ([x] + xs)[1..] == xs;
    assert (a + b)[..|a|] == a && (a + b)[|a|..] == b;
    assert Cut(([x] + xs)[0], ([x] + xs)[1..], env, a + b, |a|);
  }

  lemma FlatUncons(xs: seq<Sym>, env: Env, s: string) returns (k: nat)
    requires xs != [] && Flat(xs, env, s)
    ensures k <= |s| && SymMatch(xs[0], env, s[..k]) && Flat(xs[1..], env, s[k..])
  {
    k :| k <= |s| && Cut(xs[0], xs[1..], env, s, k);
  }

  lemma {:induction false} FlatJoin(xs: seq<Sym>, ys: seq<Sym>, env: Env, a: string, b: string)
    requires Flat(xs, env, a) && Flat(ys, env, b)
    ensures Flat(xs + ys, env, a + b)
  {
    if xs == [] {
      assert xs + ys == ys && a + b == b;
    } else {
      var k := FlatUncons(xs, env, a);
      FlatJoin(xs[1..], ys, env, a[k..], b);
      FlatCons(xs[0], xs[1..] + ys, env, a[..k], a[k..] + b);
      assert [xs[0]] + (xs[1..] + ys) == xs + ys;
      assert a[..k] + (a[k..] + b) == a + b;
    }
  }

  lemma FlatFront(xs: seq<Sym>, env: Env, s: string, k: nat)
    requires xs != [] && k <= |s| && SymMatch(xs[0], env, s[..k]) && Flat(xs[1..], env, s[k..])
    ensures Flat(xs, env, s)
  {
    assert Cut(xs[0], xs[1..], env, s, k);
  }

  lemma CutTwice(s: string, j: nat, i: nat)
    requires j + i <= |s|
    ensures s[..i + j][..j] == s[..j] && s[..i + j][j..] == s[j..][..i] && s[j..][i..] == s[i + j..]
  {
  }

  lemma SplitHead(xs: seq<Sym>, ys: seq<Sym>, env: Env, s: string) returns (j: nat)
    requires xs != [] && Flat(xs + ys, env, s)
    ensures j <= |s| && SymMatch(xs[0], env, s[..j]) && Flat(xs[1..] + ys, env, s[j..])
  {
    j := FlatUncons(xs + ys, env, s);
    assert (xs + ys)[1..] == xs[1..] + ys && (xs + ys)[0] == xs[0];
  }

  lemma {:induction false} FlatSplit(xs: seq<Sym>, ys: seq<Sym>, env: Env, s: string) returns (k: nat)
    requires Flat(xs + ys, env, s)
    ensures k <= |s| && Flat(xs, env, s[..k]) && Flat(ys, env, s[k..])
  {
    if xs == [] {
      assert xs + ys == ys && s[0..] == s;
      k := 0;
    } else {
      var j := SplitHead(xs, ys, env, s);
      var i := FlatSplit(xs[1..], ys, env, s[j..]);
      k := i + j;
      CutTwice(s, j, i);
      FlatFront(xs, env, s[..k], j);
    }
  }

  lemma FlatOne(x: Sym, env: Env, s: string)
    ensures Flat([x], env, s) <==> SymMatch(x, env, s)
  {
    if SymMatch(x, env, s) {
      assert Flat([], env, []);
      FlatCons(x, [], env, s, []);
      assert [x] + [] == [x] && s + [] == s;
    }
    if Flat([x], env, s) {
      var k := FlatUncons([x], env, s);
      assert s[k..] == [];
      assert s[..k] == s;
    }
  }

  /** A list of symbols and one more at its end. */
  lemma FlatSnoc(xs: seq<Sym>, x: Sym, env: Env, s: string) returns (k: nat)
    requires Flat(xs + [x], env, s)
    ensures k <= |s| && Flat(xs, env, s[..k]) && SymMatch(x, env, s[k..])
  {
    k := FlatSplit(xs, [x], env, s);
    FlatOne(x, env, s[k..]);
  }

  lemma FlatJoinOne(xs: seq<Sym>, x: Sym, env: Env, a: string, b: string)
    requires Flat(xs, env, a) && SymMatch(x, env, b)
    ensures Flat(xs + [x], env, a + b)
  {
    FlatOne(x, env, b);
    FlatJoin(xs, [x], env, a, b);
  }

  /** Two lists that accept the same strings. */
  ghost predicate Same(xs: seq<Sym>, ys: seq<Sym>) {
    forall env, s :: Flat(xs, env, s) <==> Flat(ys, env, s)
  }

  lemma SameAppend(xs: seq<Sym>, ys: seq<Sym>, zs: seq<Sym>)
    requires Same(xs, ys)
    ensures Same(xs + zs, ys + zs)
  {
    forall env, s ensures Flat(xs + zs, env, s) <==> Flat(ys + zs, env, s) {
      if Flat(xs + zs, env, s) { AppendOneWay(xs, ys, zs, env, s); }
      if Flat(ys + zs, env, s) { AppendOneWay(ys, xs, zs, env, s); }
    }
  }

  lemma AppendOneWay(xs: seq<Sym>, ys: seq<Sym>, zs: seq<Sym>, env: Env, s: string)
    requires Same(xs, ys) && Flat(xs + zs, env, s)
    ensures Flat(ys + zs, env, s)
  {
    var k := FlatSplit(xs, zs, env, s);
    FlatJoin(ys, zs, env, s[..k], s[k..]);
    assert s[..k] + s[k..] == s;
  }

  /** Wildcards that absorb another one of their kind. */
  predicate Absorbs(x: Sym) {
    x == Many(false) || x == Dirs
  }

  /** Writing such a wildcard twice changes nothing, so that neighbours may be merged. */
  lemma RepeatChangesNothing(xs: seq<Sym>, x: Sym)
    requires Absorbs(x)
    ensures Same(xs + [x] + [x], xs + [x])
  {
    forall env, s ensures Flat(xs + [x] + [x], env, s) <==> Flat(xs + [x], env, s) {
      if Flat(xs + [x] + [x], env, s) {
        var k := FlatSnoc(xs + [x], x, env, s);
        var j := FlatSnoc(xs, x, env, s[..k]);
        JoinPieces(x, env, s[..k][j..], s[k..]);
        FlatJoinOne(xs, x, env, s[..k][..j], s[..k][j..] + s[k..]);
        assert s[..k][..j] + (s[..k][j..] + s[k..]) == s;
      }
      if Flat(xs + [x], env, s) {
        FlatJoinOne(xs + [x], x, env, s, []);
        assert s + [] == s;
      }
    }
  }

  lemma JoinPieces(x: Sym, env: Env, a: string, b: string)
    requires Absorbs(x) && SymMatch(x, env, a) && SymMatch(x, env, b)
    ensures SymMatch(x, env, a + b)
  {
    if b == [] { assert a + b == a; }
  }

  function Chars(s: string): (xs: seq<Sym>)
    ensures |xs| == |s| && forall k :: 0 <= k < |s| ==> xs[k] == Ch(s[k])
  {
    if s == [] then [] else [Ch(s[0])] + Chars(s[1..])
  }

  lemma {:induction false} CharsMatchThemselves(w: string, env: Env, s: string)
    ensures Flat(Chars(w), env, s) <==> s == w
  {
    if w != [] {
      assert Chars(w)[1..] == Chars(w[1..]);
      if Flat(Chars(w), env, s) {
        var k := FlatUncons(Chars(w), env, s);
        CharsMatchThemselves(w[1..], env, s[k..]);
        assert s == s[..k] + s[k..] && w == [w[0]] + w[1..];
      }
      if s == w {
        CharsMatchThemselves(w[1..], env, w[1..]);
        FlatCons(Ch(w[0]), Chars(w[1..]), env, [w[0]], w[1..]);
        assert [w[0]] + w[1..] == w;
      }
    }
  }
}
