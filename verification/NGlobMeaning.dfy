/**
 * nglob.py:500-527: what the special treatment of complete components means. On strings without empty
 * components it never removes a path from an enclosed wildcard; a trailing wildcard gains an optional
 * separator and, when the code sees that it is a complete component, loses the empty match.
 */
module NGlobMeaning {
  import opened NGlobSymbols
  import opened NGlobRegex

  predicate NoDoubleSlash(s: string) {
    forall k :: 0 <= k < |s| - 1 ==> !(s[k] == '/' && s[k + 1] == '/')
  }

  lemma LitEnd(ps: seq<Part>, env: Env, s: string)
    requires ps != [] && EndsWithSlash(ps[|ps| - 1]) && Flat(PartsSyms(ps), env, s)
    ensures EndsInSlash(s)
  {
    var n := |ps| - 1;
    var k := FlatSplit(PartsSyms(ps[..n]), PartSyms(ps[n]), env, s);
    CharsMatchThemselves(ps[n].text, env, s[k..]);
    assert s[k..][|s| - k - 1] == s[|s| - 1];
  }

  lemma LitStart(ps: seq<Part>, env: Env, s: string)
    requires ps != [] && StartsWithSlash(ps[0]) && Flat(PartsSyms(ps), env, s)
    ensures StartsInSlash(s)
  {
    assert ps == [ps[0]] + ps[1..];
    PartsSymsJoin([ps[0]], ps[1..]);
    PartsSymsAppend([], ps[0]);
    assert [] + [ps[0]] == [ps[0]] && [] + PartSyms(ps[0]) == PartSyms(ps[0]);
    var k := FlatSplit(PartSyms(ps[0]), PartsSyms(ps[1..]), env, s);
    CharsMatchThemselves(ps[0].text, env, s[..k]);
    assert s[..k][0] == s[0];
  }

  /** Asking for a nonempty piece removes the empty piece and nothing else. */
  lemma PlusPiece(p: Part, env: Env, m: string)
    ensures Flat(PartSyms(Plus(p)), env, m) ==> Flat(PartSyms(p), env, m)
    ensures Flat(PartSyms(p), env, m) && m != [] ==> Flat(PartSyms(Plus(p)), env, m)
    ensures (p.Stars? || p.Group?) && Flat(PartSyms(Plus(p)), env, m) ==> m != []
    ensures (p.Stars? || p.Group?) && Flat(PartSyms(p), env, m) ==> NoSlash(m)
  {
    if PartSyms(p) != PartSyms(Plus(p)) || p.Stars? || p.Group? {
      FlatOne(PartSyms(p)[0], env, m);
      FlatOne(PartSyms(Plus(p))[0], env, m);
    }
  }

  lemma Around(before: seq<Part>, p: Part, after: seq<Part>)
    ensures PartsSyms(before + [p] + after) == PartsSyms(before) + PartSyms(p) + PartsSyms(after)
  {
    PartsSymsJoin(before + [p], after);
    PartsSymsAppend(before, p);
  }

  lemma Pieces(before: seq<Part>, p: Part, after: seq<Part>, env: Env, s: string) returns (i: nat, j: nat)
    requires Flat(PartsSyms(before + [p] + after), env, s)
    ensures i <= j <= |s| && Flat(PartsSyms(before), env, s[..i]) && Flat(PartSyms(p), env, s[i..j])
    ensures Flat(PartsSyms(after), env, s[j..])
  {
    Around(before, p, after);
    j := FlatSplit(PartsSyms(before) + PartSyms(p), PartsSyms(after), env, s);
    i := FlatSplit(PartsSyms(before), PartSyms(p), env, s[..j]);
    assert s[..j][..i] == s[..i] && s[..j][i..] == s[i..j];
  }

  lemma Assemble(s: string, i: nat, j: nat)
    requires i <= j <= |s|
    ensures s[..i] + s[i..j] == s[..j] && s[..j] + s[j..] == s
  {
  }

  lemma FromPieces(before: seq<Part>, p: Part, after: seq<Part>, env: Env, s: string, i: nat, j: nat)
    requires i <= j <= |s| && Flat(PartsSyms(before), env, s[..i]) && Flat(PartSyms(p), env, s[i..j])
    requires Flat(PartsSyms(after), env, s[j..])
    ensures Flat(PartsSyms(before + [p] + after), env, s)
  {
    Around(before, p, after);
    Assemble(s, i, j);
    FlatJoin(PartsSyms(before), PartSyms(p), env, s[..i], s[i..j]);
    FlatJoin(PartsSyms(before) + PartSyms(p), PartsSyms(after), env, s[..j], s[j..]);
  }

  /** Between two separators a piece is never empty, unless the string has an empty component. */
  lemma PlusBetweenSeparators(before: seq<Part>, p: Part, after: seq<Part>, env: Env, s: string)
    requires before != [] && EndsWithSlash(before[|before| - 1]) && after != [] && StartsWithSlash(after[0])
    requires NoDoubleSlash(s)
    ensures Flat(PartsSyms(before + [p] + after), env, s) <==> Flat(PartsSyms(before + [Plus(p)] + after), env, s)
  {
    if Flat(PartsSyms(before + [p] + after), env, s) {
      var i, j := Pieces(before, p, after, env, s);
      LitEnd(before, env, s[..i]);
      LitStart(after, env, s[j..]);
      assert s[i - 1] == '/' && s[j] == '/';
      PlusPiece(p, env, s[i..j]);
      FromPieces(before, Plus(p), after, env, s, i, j);
    }
    if Flat(PartsSyms(before + [Plus(p)] + after), env, s) {
      var i, j := Pieces(before, Plus(p), after, env, s);
      PlusPiece(p, env, s[i..j]);
      FromPieces(before, p, after, env, s, i, j);
    }
  }

  lemma EnclosedNext(ps: seq<Part>, n: nat) returns (before: seq<Part>, after: seq<Part>)
    requires n < |ps|
    ensures Enclosed(ps, n) == before + [ps[n]] + after
    ensures Enclosed(ps, n + 1) == before + [if IsEnclosed(ps, n) then Plus(ps[n]) else ps[n]] + after
    ensures IsEnclosed(ps, n) ==> before != [] && EndsWithSlash(before[|before| - 1])
    ensures IsEnclosed(ps, n) ==> after != [] && StartsWithSlash(after[0])
  {
    before, after := Enclosed(ps, n)[..n], Enclosed(ps, n)[n + 1..];
  }

  /** The loop over the enclosed wildcards changes no answer, whatever position it has reached. */
  lemma {:induction false} EnclosedKeepsMeaning(ps: seq<Part>, n: nat, env: Env, s: string)
    requires n <= |ps| && NoDoubleSlash(s)
    ensures Flat(PartsSyms(Enclosed(ps, n)), env, s) <==> Flat(PartsSyms(ps), env, s)
  {
    if n == 0 {
      assert Enclosed(ps, 0) == ps;
    } else {
      EnclosedKeepsMeaning(ps, n - 1, env, s);
      var before, after := EnclosedNext(ps, n - 1);
      if IsEnclosed(ps, n - 1) { PlusBetweenSeparators(before, ps[n - 1], after, env, s); }
    }
  }

  /** A match that does not end in a separator where the code asks for a nonempty last component. */
  ghost predicate ReadsParts(ps: seq<Part>, env: Env, s: string) {
    Flat(PartsSyms(ps), env, s) && (Guarded(ps) ==> !EndsInSlash(s))
  }

  lemma SnocPiece(before: seq<Part>, p: Part, env: Env, s: string) returns (i: nat)
    requires Flat(PartsSyms(before + [p]), env, s)
    ensures i <= |s| && Flat(PartsSyms(before), env, s[..i]) && Flat(PartSyms(p), env, s[i..])
  {
    PartsSymsAppend(before, p);
    i := FlatSplit(PartsSyms(before), PartSyms(p), env, s);
  }

  lemma FromSnoc(before: seq<Part>, p: Part, env: Env, s: string, i: nat)
    requires i <= |s| && Flat(PartsSyms(before), env, s[..i]) && Flat(PartSyms(p), env, s[i..])
    ensures Flat(PartsSyms(before + [p]), env, s)
  {
    PartsSymsAppend(before, p);
    FlatJoin(PartsSyms(before), PartSyms(p), env, s[..i], s[i..]);
    assert s[..i] + s[i..] == s;
  }

  lemma LastOfSuffix(s: string, i: nat)
    requires i <= |s|
    ensures i < |s| ==> s[i..] != [] && s[i..][|s| - i - 1] == s[|s| - 1]
    ensures i == |s| ==> s[..i] == s && s[i..] == []
  {
  }

  lemma NonemptyLastPiece(before: seq<Part>, p: Part, env: Env, s: string)
    requires (p.Stars? || p.Group?) && before != [] && EndsWithSlash(before[|before| - 1])
    requires Flat(PartsSyms(before + [Plus(p)]), env, s)
    ensures Flat(PartsSyms(before + [p]), env, s) && !EndsInSlash(s)
  {
    var i := SnocPiece(before, Plus(p), env, s);
    PlusPiece(p, env, s[i..]);
    LastOfSuffix(s, i);
    FromSnoc(before, p, env, s, i);
  }

  lemma LastPieceNotEmpty(before: seq<Part>, p: Part, env: Env, s: string)
    requires (p.Stars? || p.Group?) && before != [] && EndsWithSlash(before[|before| - 1])
    requires Flat(PartsSyms(before + [p]), env, s) && !EndsInSlash(s)
    ensures Flat(PartsSyms(before + [Plus(p)]), env, s)
  {
    var i := SnocPiece(before, p, env, s);
    LitEnd(before, env, s[..i]);
    LastOfSuffix(s, i);
    PlusPiece(p, env, s[i..]);
    FromSnoc(before, Plus(p), env, s, i);
  }

  lemma LastPiece(before: seq<Part>, p: Part, env: Env, s: string)
    requires p.Stars? || p.Group?
    ensures Flat(PartsSyms(before + [if Guarded(before + [p]) then Plus(p) else p]), env, s)
            <==> ReadsParts(before + [p], env, s)
  {
    if Guarded(before + [p]) {
      assert EndsWithSlash(before[|before| - 1]);
      if Flat(PartsSyms(before + [Plus(p)]), env, s) { NonemptyLastPiece(before, p, env, s); }
      if ReadsParts(before + [p], env, s) { LastPieceNotEmpty(before, p, env, s); }
    }
  }

  lemma OptionalSlash(xs: seq<Sym>, env: Env, s: string)
    ensures Flat(xs + [MaybeSlash], env, s) <==>
              Flat(xs, env, s) || (EndsInSlash(s) && Flat(xs, env, s[..|s| - 1]))
  {
    if Flat(xs + [MaybeSlash], env, s) {
      var k := FlatSnoc(xs, MaybeSlash, env, s);
      if s[k..] == [] { assert s[..k] == s; } else { assert s[k..][0] == s[k]; }
    }
    if Flat(xs, env, s) {
      FlatJoinOne(xs, MaybeSlash, env, s, []);
      assert s + [] == s;
    }
    if EndsInSlash(s) && Flat(xs, env, s[..|s| - 1]) {
      FlatJoinOne(xs, MaybeSlash, env, s[..|s| - 1], ['/']);
      assert s[..|s| - 1] + ['/'] == s;
    }
  }

  lemma TrailingMeaning(ps: seq<Part>, env: Env, s: string)
    requires LastIsStar(ps)
    ensures Flat(PartsSyms(Trailing(ps)), env, s) <==>
              ReadsParts(ps, env, s) || (EndsInSlash(s) && ReadsParts(ps, env, s[..|s| - 1]))
  {
    var before, p := ps[..|ps| - 1], ps[|ps| - 1];
    assert ps == before + [p];
    var q := if Guarded(ps) then Plus(p) else p;
    PartsSymsAppend(before + [q], OptSlash);
    OptionalSlash(PartsSyms(before + [q]), env, s);
    LastPiece(before, p, env, s);
    if EndsInSlash(s) { LastPiece(before, p, env, s[..|s| - 1]); }
  }

  /** The plain reading, and a nonempty last component where the code asks for one. */
  ghost predicate Reads(ts: seq<Token>, env: Env, s: string) {
    Flat(Syms(ts), env, s) && (Guarded(Build(ts).parts) ==> !EndsInSlash(s))
  }

  /** What the generated regular expression accepts, for every string without empty components. */
  lemma RegexMeaning(ts: seq<Token>, env: Env, s: string)
    requires Lexed(ts) && NoDoubleSlash(s)
    ensures Flat(PartsSyms(RegexParts(ts)), env, s) <==>
              Reads(ts, env, s)
              || (LastIsStar(Build(ts).parts) && EndsInSlash(s) && Reads(ts, env, s[..|s| - 1]))
  {
    var ps := Build(ts).parts;
    var e := Enclosed(ps, |ps|);
    BuildKeepsMeaning(ts);
    EnclosedKeepsMeaning(ps, |ps|, env, s);
    EnclosedShape(ps);
    if LastIsStar(ps) {
      TrailingMeaning(e, env, s);
      if EndsInSlash(s) { EnclosedKeepsMeaning(ps, |ps|, env, s[..|s| - 1]); }
    }
  }

  lemma EnclosedShape(ps: seq<Part>)
    ensures LastIsStar(Enclosed(ps, |ps|)) <==> LastIsStar(ps)
    ensures Guarded(Enclosed(ps, |ps|)) <==> Guarded(ps)
  {
  }
}
