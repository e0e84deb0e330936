/** nglob.py:475: a pattern whose classes are taken not to accept a separator, and what becomes of its symbols. */
module NGlobInside {
  import opened NGlobSymbols
  import opened NGlobRegex
  import opened NGlobShape

  function Inside(t: Token): Token {
    if t.Class? then Class(t.regex - {'/'}, t.glob) else t
  }

  /** The pattern whose classes accept no separator. */
  function WithoutSlash(ts: seq<Token>): (r: seq<Token>)
    ensures |r| == |ts|
  {
    seq(|ts|, i requires 0 <= i < |ts| => Inside(ts[i]))
  }

  lemma WithoutSlashInit(ts: seq<Token>)
    requires ts != []
    ensures WithoutSlash(ts)[..|ts| - 1] == WithoutSlash(ts[..|ts| - 1])
    ensures WithoutSlash(ts) == WithoutSlash(ts[..|ts| - 1]) + [Inside(ts[|ts| - 1])]
  {
  }

  lemma {:induction false} LexedInside(ts: seq<Token>)
    requires Lexed(ts)
    ensures Lexed(WithoutSlash(ts))
  {
    if ts != [] {
      LexedInside(ts[..|ts| - 1]);
      WithoutSlashInit(ts);
      LexedAppend(WithoutSlash(ts[..|ts| - 1]), Inside(ts[|ts| - 1]));
    }
  }

  lemma InsideIsSmall(ts: seq<Token>)
    ensures SmallClasses(WithoutSlash(ts))
  {
    var us := WithoutSlash(ts);
    forall i | 0 <= i < |us| && us[i].Class? ensures '/' !in us[i].regex { assert us[i] == Inside(ts[i]); }
  }

  function InsideSym(x: Sym): Sym {
    if x.In? then In(x.chars - {'/'}) else x
  }

  function InsideSyms(xs: seq<Sym>): (r: seq<Sym>)
    ensures |r| == |xs|
  {
    seq(|xs|, i requires 0 <= i < |xs| => InsideSym(xs[i]))
  }

  lemma TokenInside(t: Token)
    ensures TokenSyms(Inside(t)) == InsideSyms(TokenSyms(t))
  {
  }

  lemma InsideJoin(xs: seq<Sym>, t: Token)
    ensures InsideSyms(xs + TokenSyms(t)) == InsideSyms(xs) + TokenSyms(Inside(t))
  {
    TokenInside(t);
  }

  lemma {:induction false} SymsInside(ts: seq<Token>)
    ensures Syms(WithoutSlash(ts)) == InsideSyms(Syms(ts))
  {
    if ts == [] {
      assert InsideSyms([]) == [];
    } else {
      var init, t := ts[..|ts| - 1], ts[|ts| - 1];
      SymsInside(init);
      WithoutSlashInit(ts);
      SymsAppend(WithoutSlash(init), Inside(t));
      InsideJoin(Syms(init), t);
    }
  }

  lemma InsidePiece(x: Sym, env: Env, s: string)
    requires SymMatch(InsideSym(x), env, s)
    ensures SymMatch(x, env, s)
  {
  }

  lemma {:induction false} InsideAccepts(xs: seq<Sym>, env: Env, s: string)
    requires Flat(InsideSyms(xs), env, s)
    ensures Flat(xs, env, s)
  {
    if xs != [] {
      var ys := InsideSyms(xs);
      var k := FlatUncons(ys, env, s);
      assert ys[0] == InsideSym(xs[0]) && ys[1..] == InsideSyms(xs[1..]);
      InsidePiece(xs[0], env, s[..k]);
      InsideAccepts(xs[1..], env, s[k..]);
      FlatFront(xs, env, s, k);
    }
  }
}
