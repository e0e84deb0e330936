/**
 * nglob.py:81-96: splitting a pattern at its wildcards. The alternatives of RE_ANY_WILD are tried in
 * order at every position from left to right; a pattern is one line.
 */
module NGlobLexer {
  import opened NGlobSymbols
  import opened NGlobRegex
  import opened NGlobShape

  predicate StartsAt(w: string, s: string, i: nat) {
    i + |w| <= |s| && s[i..i + |w|] == w
  }

  /** `^` or a separator behind. */
  predicate AfterSeparator(s: string, i: nat)
    requires i <= |s|
  {
    i == 0 || s[i - 1] == '/'
  }

  predicate WordChar(c: char) {
    'a' <= c <= 'z' || 'A' <= c <= 'Z' || '0' <= c <= '9' || c == '_'
  }

  /** The first position from `i` on that does not hold a word character. */
  function NameEnd(s: string, i: nat): (j: nat)
    requires i <= |s|
    ensures i <= j <= |s| && forall k :: i <= k < j ==> WordChar(s[k])
    ensures j < |s| ==> !WordChar(s[j])
    decreases |s| - i
  {
    if i == |s| || !WordChar(s[i]) then i else NameEnd(s, i + 1)
  }

  /** The position of the first closing bracket from `i` on. */
  function ClassEnd(s: string, i: nat): (j: nat)
    requires i <= |s|
    ensures i <= j <= |s| && forall k :: i <= k < j ==> s[k] != ']'
    ensures j < |s| ==> s[j] == ']'
    decreases |s| - i
  {
    if i == |s| || s[i] == ']' then i else ClassEnd(s, i + 1)
  }

  /** The characters that the two translations of the inside of a class accept. */
  type Classes = string -> (set<char>, set<char>)

  datatype Hit = Hit(token: Token, next: nat) | Miss

  function Wildcard(s: string, i: nat, classes: Classes): (h: Hit)
    requires i < |s|
    ensures h.Hit? ==> i < h.next <= |s| && !h.token.Text?
    ensures h.Hit? && (h.token.Rec? || h.token.RecSlash?) ==> AfterSeparator(s, i)
    ensures h.Hit? && h.token.Rec? ==> h.next == |s|
    ensures h.Hit? && h.token.RecSlash? ==> s[h.next - 1] == '/'
    ensures h.Hit? && !h.token.RecSlash? ==> s[h.next - 1] != '/'
  {
    if AfterSeparator(s, i) && s[i..] == ['*', '*'] then
      assert s[i..][1] == s[i + 1];
      Hit(Rec, |s|)
    else if AfterSeparator(s, i) && StartsAt(['*', '*', '/'], s, i) then
      assert s[i..i + 3][2] == s[i + 2];
      Hit(RecSlash, i + 3)
    else if s[i] == '[' && ClassEnd(s, i) < |s| then
      var j := ClassEnd(s, i);
      var (regex, glob) := classes(s[i + 1..j]);
      Hit(Class(regex, glob), j + 1)
    else if s[i] == '*' then Hit(Star, i + 1)
    else if s[i] == '?' then Hit(One, i + 1)
    else if StartsAt(['$', '{', '*'], s, i) && NameEnd(s, i + 3) < |s| && s[NameEnd(s, i + 3)] == '}' then
      Hit(Named(s[i + 3..NameEnd(s, i + 3)]), NameEnd(s, i + 3) + 1)
    else Miss
  }

  function PrependChar(c: char, ts: seq<Token>): seq<Token> {
    if ts != [] && ts[0].Text? then [Text([c] + ts[0].text)] + ts[1..] else [Text([c])] + ts
  }

  function Lex(s: string, i: nat, classes: Classes): seq<Token>
    requires i <= |s|
    decreases |s| - i
  {
    if i == |s| then []
    else
      match Wildcard(s, i, classes)
      case Hit(token, next) => [token] + Lex(s, next, classes)
      case Miss => PrependChar(s[i], Lex(s, i + 1, classes))
  }

  // ---- The result of splitting ----

  /** What may come right after `t`. */
  predicate MayFollow(t: Token, ts: seq<Token>) {
    && (t.Rec? ==> ts == [])
    && (ts != [] && (ts[0].Rec? || ts[0].RecSlash?) ==> t.RecSlash? || (t.Text? && EndsInSlash(t.text)))
    && (t.Text? ==> t.text != [])
  }

  lemma {:induction false} LexedCons(t: Token, ts: seq<Token>)
    requires Lexed(ts) && MayFollow(t, ts)
    ensures Lexed([t] + ts)
  {
    if ts == [] {
      assert [t] + ts == [t] && [t][..0] == [];
      assert Lexed([]);
    } else {
      var init, u := ts[..|ts| - 1], ts[|ts| - 1];
      if init != [] { assert init[0] == ts[0]; }
      LexedCons(t, init);
      LexedAppend([t] + init, u);
      assert [t] + ts == [t] + init + [u];
    }
  }

  /** Splitting yields recursive wildcards only as complete components, and no empty text. */
  lemma {:induction false} SplitIsLexed(s: string, i: nat, classes: Classes)
    requires i <= |s|
    ensures var ts := Lex(s, i, classes);
            && Lexed(ts)
            && (i == |s| ==> ts == [])
            && (ts != [] && (ts[0].Rec? || ts[0].RecSlash?) ==> AfterSeparator(s, i))
    decreases |s| - i
  {
    if i < |s| {
      match Wildcard(s, i, classes)
      case Hit(token, next) =>
        SplitIsLexed(s, next, classes);
        LexedCons(token, Lex(s, next, classes));
      case Miss =>
        SplitIsLexed(s, i + 1, classes);
        PrependIsLexed(s[i], Lex(s, i + 1, classes));
    }
  }

  lemma PrependIsLexed(c: char, ts: seq<Token>)
    requires Lexed(ts) && (ts != [] && (ts[0].Rec? || ts[0].RecSlash?) ==> c == '/')
    ensures Lexed(PrependChar(c, ts)) && PrependChar(c, ts) != [] && PrependChar(c, ts)[0].Text?
  {
    if ts != [] && ts[0].Text? {
      TextBefore(c, ts);
    } else {
      LexedCons(Text([c]), ts);
    }
  }

  /** Lengthening the first text at its front changes nothing for what follows it. */
  lemma {:induction false} TextBefore(c: char, ts: seq<Token>)
    requires Lexed(ts) && ts != [] && ts[0].Text?
    ensures Lexed([Text([c] + ts[0].text)] + ts[1..])
  {
    var first := Text([c] + ts[0].text);
    if |ts| == 1 {
      assert ts[1..] == [] && ts[..0] == [];
      LexedCons(first, []);
    } else {
      var init, u := ts[..|ts| - 1], ts[|ts| - 1];
      TextBefore(c, init);
      assert init[1..] + [u] == ts[1..];
      LexedAppend([first] + init[1..], u);
      assert [first] + init[1..] + [u] == [first] + ts[1..];
    }
  }

  // ---- The fragments spell the pattern ----

  /** How a fragment is written. */
  predicate WrittenAs(t: Token, x: string, classes: Classes) {
    match t
    case Text(text) => x == text
    case One => x == "?"
    case Star => x == "*"
    case Rec => x == "**"
    case RecSlash => x == "**/"
    case Class(regex, glob) =>
      |x| >= 2 && x[0] == '[' && x[|x| - 1] == ']' && ']' !in x[1..|x| - 1] && (regex, glob) == classes(x[1..|x| - 1])
    case Named(name) => x == "${*" + name + "}" && forall k :: 0 <= k < |name| ==> WordChar(name[k])
  }

  /** The position starts none of the wildcards. */
  predicate OnlyText(s: string, p: nat)
    requires p < |s|
  {
    && s[p] != '*' && s[p] != '?' && (s[p] == '[' ==> ']' !in s[p..])
    && (p + 3 <= |s| && s[p..p + 3] == "${*" ==>
          forall e :: p + 3 <= e < |s| && (forall k :: p + 3 <= k < e ==> WordChar(s[k])) ==> s[e] != '}')
  }

  /** A complete component `**` is recursive, and nothing else is. */
  predicate StarsInPlace(t: Token, s: string, p: nat)
    requires p < |s|
  {
    && (t.Rec? || t.RecSlash? ==> p == 0 || s[p - 1] == '/')
    && (t.Rec? ==> p + 2 == |s|)
    && (t == Star && (p == 0 || s[p - 1] == '/') && p + 1 < |s| && s[p + 1] == '*' ==> p + 2 < |s| && s[p + 2] != '/')
  }

  predicate FragmentAt(t: Token, s: string, p: nat, q: nat, classes: Classes) {
    && p < q <= |s| && WrittenAs(t, s[p..q], classes) && StarsInPlace(t, s, p)
    && (t.Text? ==> forall k :: p <= k < q ==> OnlyText(s, k))
  }

  ghost predicate Spells(ts: seq<Token>, s: string, i: nat, at: seq<nat>, classes: Classes) {
    && |at| == |ts| + 1 && at[0] == i && at[|ts|] == |s|
    && forall k :: 0 <= k < |ts| ==> FragmentAt(ts[k], s, at[k], at[k + 1], classes)
  }

  lemma HitIsFragment(s: string, i: nat, classes: Classes)
    requires i < |s| && Wildcard(s, i, classes).Hit?
    ensures var h := Wildcard(s, i, classes); FragmentAt(h.token, s, i, h.next, classes)
  {
    var h := Wildcard(s, i, classes);
    var x := s[i..h.next];
    match h.token
    case Rec => assert s[i..] == x;
    case RecSlash =>
    case Class(_, _) =>
      var j := ClassEnd(s, i);
      assert x[1..|x| - 1] == s[i + 1..j];
    case Star => StarIsPlain(s, i);
    case One =>
    case Named(name) =>
      assert x == s[i..i + 3] + name + [s[NameEnd(s, i + 3)]];
  }

  lemma StarIsPlain(s: string, i: nat)
    requires i < |s| && s[i] == '*' && !(AfterSeparator(s, i) && s[i..] == ['*', '*'])
    requires !(AfterSeparator(s, i) && StartsAt(['*', '*', '/'], s, i))
    ensures StarsInPlace(Star, s, i) && s[i..i + 1] == "*"
  {
    assert i + 2 == |s| && s[i + 1] == '*' ==> s[i..] == ['*', '*'];
    assert i + 3 <= |s| && s[i + 1] == '*' && s[i + 2] == '/' ==> s[i..i + 3] == ['*', '*', '/'];
  }

  lemma {:induction false} NameEndIsFirst(s: string, i: nat, e: nat)
    requires i <= e < |s| && !WordChar(s[e]) && forall k :: i <= k < e ==> WordChar(s[k])
    ensures NameEnd(s, i) == e
    decreases e - i
  {
    if i < e { NameEndIsFirst(s, i + 1, e); }
  }

  lemma MissIsText(s: string, i: nat, classes: Classes)
    requires i < |s| && Wildcard(s, i, classes).Miss?
    ensures OnlyText(s, i)
  {
    if StartsAt(['$', '{', '*'], s, i) {
      forall e | i + 3 <= e < |s| && (forall k :: i + 3 <= k < e ==> WordChar(s[k])) ensures s[e] != '}' {
        if s[e] == '}' { NameEndIsFirst(s, i + 3, e); }
      }
    }
  }

  lemma TextGrows(s: string, i: nat, ts: seq<Token>, at: seq<nat>, classes: Classes) returns (more: seq<nat>)
    requires i < |s| && OnlyText(s, i) && Spells(ts, s, i + 1, at, classes)
    ensures Spells(PrependChar(s[i], ts), s, i, more, classes)
  {
    var us := PrependChar(s[i], ts);
    if ts != [] && ts[0].Text? {
      more := [i] + at[1..];
      assert FragmentAt(ts[0], s, at[0], at[0 + 1], classes);
      assert s[i..at[1]] == [s[i]] + s[i + 1..at[1]];
      forall k | 0 <= k < |us| ensures FragmentAt(us[k], s, more[k], more[k + 1], classes) {
        if k > 0 { assert us[k] == ts[k] && more[k] == at[k] && more[k + 1] == at[k + 1]; }
      }
    } else {
      more := [i] + at;
      assert s[i..i + 1] == [s[i]];
      forall k | 0 <= k < |us| ensures FragmentAt(us[k], s, more[k], more[k + 1], classes) {
        if k > 0 { assert us[k] == ts[k - 1] && more[k] == at[k - 1] && more[k + 1] == at[k - 1 + 1]; }
      }
    }
  }

  /**
   * The fragments, one after the other, are the pattern: each wildcard is written as it is read, and the text
   * between them starts none.
   */
  lemma {:induction false} SplitSpells(s: string, i: nat, classes: Classes) returns (at: seq<nat>)
    requires i <= |s|
    ensures Spells(Lex(s, i, classes), s, i, at, classes)
    decreases |s| - i
  {
    if i == |s| {
      at := [i];
    } else {
      match Wildcard(s, i, classes)
      case Hit(token, next) =>
        HitIsFragment(s, i, classes);
        var rest := SplitSpells(s, next, classes);
        at := [i] + rest;
        SpellsCons(s, i, token, Lex(s, next, classes), rest, classes);
      case Miss =>
        MissIsText(s, i, classes);
        var rest := SplitSpells(s, i + 1, classes);
        at := TextGrows(s, i, Lex(s, i + 1, classes), rest, classes);
    }
  }

  lemma SpellsCons(s: string, i: nat, t: Token, ts: seq<Token>, at: seq<nat>, classes: Classes)
    requires |at| == |ts| + 1 && FragmentAt(t, s, i, at[0], classes) && Spells(ts, s, at[0], at, classes)
    ensures Spells([t] + ts, s, i, [i] + at, classes)
  {
    var us, more := [t] + ts, [i] + at;
    forall k | 0 <= k < |us| ensures FragmentAt(us[k], s, more[k], more[k + 1], classes) {
      if k > 0 { assert us[k] == ts[k - 1] && more[k] == at[k - 1] && more[k + 1] == at[k - 1 + 1]; }
    }
  }
}
