/** The two ways StepUp turns "everything under this directory" into an SQL condition. */
module PathPrefix {
  import opened Basics
  import opened Bytewise

  const SLASH: byte := 0x2F
  const ZERO: byte := 0x30

  datatype Bound = Upper(bytes: Bytes) | ValueError

  predicate EndsWithSlash(path: Bytes) {
    path != [] && path[|path| - 1] == SLASH
  }

  /** path.py `dir_range_upper`. */
  function DirRangeUpper(parent: Bytes): Bound {
    if EndsWithSlash(parent) then Upper(parent[..|parent| - 1] + [ZERO]) else ValueError
  }

  /** The SQL condition `path >= :parent AND path < :upper`. */
  predicate InRange(parent: Bytes, upper: Bytes, path: Bytes) {
    !Less(path, parent) && Less(path, upper)
  }

  lemma {:induction false} DirRangeIsPrefix(parent: Bytes, path: Bytes)
    ensures DirRangeUpper(parent).Upper? <==> EndsWithSlash(parent)
    ensures EndsWithSlash(parent) ==>
              (InRange(parent, DirRangeUpper(parent).bytes, path) <==> parent <= path)
    decreases |parent|
  {
    if EndsWithSlash(parent) {
      var upper := DirRangeUpper(parent).bytes;
      if |parent| == 1 {
        assert upper == [ZERO] && parent == [SLASH];
        if path != [] {
          assert Less(path, parent) <==> path[0] < SLASH;
          assert Less(path, upper) <==> path[0] < ZERO;
          assert parent <= path <==> path[0] == SLASH;
        }
      } else if path != [] && path[0] == parent[0] {
        DirRangeIsPrefix(parent[1..], path[1..]);
        assert upper[1..] == DirRangeUpper(parent[1..]).bytes;
        assert parent == [parent[0]] + parent[1..] && path == [path[0]] + path[1..];
        assert parent[1..] <= path[1..] ==> parent <= path;
      }
    }
  }

  /** The bound is the smallest string past every path below `parent`. */
  lemma UpperIsLeastBound(parent: Bytes, bound: Bytes)
    requires EndsWithSlash(parent)
    requires forall path :: parent <= path ==> Less(path, bound)
    ensures !Less(bound, DirRangeUpper(parent).bytes)
  {
    DirRangeIsPrefix(parent, bound);
    LessIrreflexive(bound);
    if Less(bound, parent) {
      assert parent <= parent;
      LessTransitive(parent, bound, parent);
      LessIrreflexive(parent);
    }
  }

  // ---- LIKE ----

  /** Python's `str.replace` for a single character. */
  function Replace(s: string, c: char, text: string): string {
    if s == "" then "" else (if s[0] == c then text else [s[0]]) + Replace(s[1..], c, text)
  }

  /** The pattern that sqlite3.py `prefix_clause` binds. */
  function PrefixPattern(prefix: string): string {
    Replace(Replace(Replace(prefix, '\\', "\\\\"), '%', "\\%"), '_', "\\_") + "%"
  }

  /** SQLite folds only ASCII letters. */
  function FoldChar(c: char): char {
    if 'A' <= c <= 'Z' then c - 'A' + 'a' else c
  }

  /** `s` starts with `prefix`, up to the case of ASCII letters. */
  predicate StartsWithFolded(s: string, prefix: string) {
    |prefix| <= |s| && forall i :: 0 <= i < |prefix| ==> FoldChar(prefix[i]) == FoldChar(s[i])
  }

  /** `s LIKE p ESCAPE '\'` with SQLite's default case-insensitive comparison. */
  predicate Like(p: string, s: string)
    decreases |p| + |s|
  {
    if p == "" then s == ""
    else if p[0] == '%' then Like(p[1..], s) || (s != "" && Like(p, s[1..]))
    else if p[0] == '\\' then
      |p| >= 2 && s != "" && FoldChar(p[1]) == FoldChar(s[0]) && Like(p[2..], s[1..])
    else if p[0] == '_' then s != "" && Like(p[1..], s[1..])
    else s != "" && FoldChar(p[0]) == FoldChar(s[0]) && Like(p[1..], s[1..])
  }

  function EscapeChar(c: char): string {
    if c == '\\' || c == '%' || c == '_' then ['\\', c] else [c]
  }

  function Escape(s: string): string {
    if s == "" then "" else EscapeChar(s[0]) + Escape(s[1..])
  }

  lemma {:induction false} ReplaceAppend(a: string, b: string, c: char, text: string)
    ensures Replace(a + b, c, text) == Replace(a, c, text) + Replace(b, c, text)
  {
    if a == "" {
      assert a + b == b;
    } else {
      ReplaceAppend(a[1..], b, c, text);
      assert (a + b)[1..] == a[1..] + b;
      Regroup(if a[0] == c then text else [a[0]], Replace(a[1..], c, text), Replace(b, c, text));
    }
  }

  /** Three replacements one after the other equal one pass that escapes character by character. */
  lemma {:induction false} SequentialReplacesEscape(prefix: string)
    ensures PrefixPattern(prefix) == Escape(prefix) + "%"
  {
    if prefix != "" {
      var head, tail := [prefix[0]], prefix[1..];
      SequentialReplacesEscape(tail);
      assert prefix == head + tail;
      var h1, t1 := Replace(head, '\\', "\\\\"), Replace(tail, '\\', "\\\\");
      ReplaceAppend(head, tail, '\\', "\\\\");
      var h2, t2 := Replace(h1, '%', "\\%"), Replace(t1, '%', "\\%");
      ReplaceAppend(h1, t1, '%', "\\%");
      ReplaceAppend(h2, t2, '_', "\\_");
      EscapeOneChar(prefix[0]);
      assert Escape(prefix) + "%" == EscapeChar(prefix[0]) + (Escape(tail) + "%");
    }
  }

  lemma EscapeOneChar(c: char)
    ensures Replace(Replace(Replace([c], '\\', "\\\\"), '%', "\\%"), '_', "\\_") == EscapeChar(c)
  {
    assert [c][1..] == "";
    assert Replace([c], '\\', "\\\\") == if c == '\\' then "\\\\" else [c];
    if c == '\\' {
      assert "\\\\"[1..] == "\\" && "\\"[1..] == "";
      assert Replace("\\\\", '%', "\\%") == "\\" + Replace("\\", '%', "\\%") == "\\\\";
      assert Replace("\\\\", '_', "\\_") == "\\" + Replace("\\", '_', "\\_") == "\\\\";
    } else if c == '%' {
      assert "\\%"[1..] == "%" && "%"[1..] == "";
      assert Replace("\\%", '_', "\\_") == "\\" + Replace("%", '_', "\\_") == "\\%";
    }
  }

  lemma {:induction false} PercentMatchesAll(s: string)
    ensures Like("%", s)
  {
    assert "%"[1..] == "";
    if s != "" {
      PercentMatchesAll(s[1..]);
    }
  }

  lemma StartsWithFoldedCons(s: string, prefix: string)
    requires prefix != "" && s != ""
    ensures StartsWithFolded(s, prefix) <==>
              FoldChar(prefix[0]) == FoldChar(s[0]) && StartsWithFolded(s[1..], prefix[1..])
  {
    if StartsWithFolded(s[1..], prefix[1..]) && FoldChar(prefix[0]) == FoldChar(s[0]) {
      forall i | 0 <= i < |prefix| ensures FoldChar(prefix[i]) == FoldChar(s[i]) {
        if i > 0 {
          assert prefix[i] == prefix[1..][i - 1] && s[i] == s[1..][i - 1];
        }
      }
    }
  }

  lemma LikeEscapedHead(c: char, p: string, s: string)
    ensures Like(EscapeChar(c) + p, s) <==> s != "" && FoldChar(c) == FoldChar(s[0]) && Like(p, s[1..])
  {
    var q := EscapeChar(c) + p;
    assert q[|EscapeChar(c)|..] == p;
  }

  lemma {:induction false} LikeEscaped(prefix: string, s: string)
    ensures Like(Escape(prefix) + "%", s) <==> StartsWithFolded(s, prefix)
    decreases |prefix|
  {
    if prefix == "" {
      assert Escape(prefix) + "%" == "%";
      PercentMatchesAll(s);
    } else {
      assert Escape(prefix) + "%" == EscapeChar(prefix[0]) + (Escape(prefix[1..]) + "%");
      LikeEscapedHead(prefix[0], Escape(prefix[1..]) + "%", s);
      if s != "" {
        LikeEscaped(prefix[1..], s[1..]);
        StartsWithFoldedCons(s, prefix);
      }
    }
  }

  /** The bound pattern accepts exactly the strings that start with `prefix` up to ASCII case. */
  lemma LikeIsPrefix(prefix: string, s: string)
    ensures Like(PrefixPattern(prefix), s) <==>
              |prefix| <= |s| && forall i :: 0 <= i < |prefix| ==>
                || prefix[i] == s[i]
                || ('A' <= prefix[i] <= 'Z' && s[i] as int == prefix[i] as int + 32)
                || ('A' <= s[i] <= 'Z' && prefix[i] as int == s[i] as int + 32)
  {
    SequentialReplacesEscape(prefix);
    LikeEscaped(prefix, s);
  }

  /** Every string below the prefix is found. */
  lemma PrefixAlwaysFound(prefix: string, rest: string)
    ensures Like(PrefixPattern(prefix), prefix + rest)
  {
    LikeIsPrefix(prefix, prefix + rest);
  }

  /** So is one that only starts with another spelling of the prefix. */
  lemma LikeOvermatchesByCase(prefix: string, path: string)
    requires prefix == ['O', 'u', 't', '/'] && path == ['o', 'u', 't', '/', 'x']
    ensures Like(PrefixPattern(prefix), path) && !(prefix <= path)
  {
    LikeIsPrefix(prefix, path);
  }
}
