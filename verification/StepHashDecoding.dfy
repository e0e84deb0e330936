/** Equal streams come from equal ingredients. */
module StepHashDecoding {
  import opened Basics
  import opened Bytewise
  import opened BigEndian
  import opened StepHash

  /** What may follow a text: nothing, or another marker. */
  predicate AtMarker(x: Bytes) { x == [] || x[0] == 0 }

  lemma EncodedText(u: Bytes, x: Bytes)
    ensures Encode(Text(u)) + x == [0, 1] + (u + x)
  {
  }

  lemma TextDecodes(u: Bytes, v: Bytes, x: Bytes, y: Bytes)
    requires NullFree(u) && NullFree(v) && AtMarker(x) && AtMarker(y)
    requires Encode(Text(u)) + x == Encode(Text(v)) + y
    ensures u == v && x == y
  {
    EncodedText(u, x);
    EncodedText(v, y);
    Strip([0, 1], [0, 1], u + x, v + y);
    TextEnds(u, v, x, y);
  }

  lemma RawDecodes(u: Bytes, v: Bytes, x: Bytes, y: Bytes)
    requires |u| == |v| && Encode(Raw(u)) + x == Encode(Raw(v)) + y
    ensures u == v && x == y
  {
    Strip(Encode(Raw(u)), Encode(Raw(v)), x, y);
    assert u == Encode(Raw(u))[2..] && v == Encode(Raw(v))[2..];
  }

  /** Path, mode, size and digest of an entry, whatever bytes the three binary words contain. */
  lemma FileEntryDecodes(p: Bytes, q: Bytes, g: FileHash, h: FileHash, x: Bytes, y: Bytes)
    requires NullFree(p) && NullFree(q) && WellFormedHash(g) && WellFormedHash(h)
    requires FileEntry(p, g) + x == FileEntry(q, h) + y
    ensures p == q && g == h && x == y
  {
    var gd, hd := Encode(Raw(g.digest)) + x, Encode(Raw(h.digest)) + y;
    var gs, hs := Encode(Raw(ToBytes(g.size, 8))) + gd, Encode(Raw(ToBytes(h.size, 8))) + hd;
    var gm, hm := Encode(Raw(ToBytes(g.mode, 8))) + gs, Encode(Raw(ToBytes(h.mode, 8))) + hs;
    RegroupEntry(Encode(Text(p)), Encode(Raw(ToBytes(g.mode, 8))), Encode(Raw(ToBytes(g.size, 8))), Encode(Raw(g.digest)), x);
    RegroupEntry(Encode(Text(q)), Encode(Raw(ToBytes(h.mode, 8))), Encode(Raw(ToBytes(h.size, 8))), Encode(Raw(h.digest)), y);
    TextDecodes(p, q, gm, hm);
    RawDecodes(ToBytes(g.mode, 8), ToBytes(h.mode, 8), gs, hs);
    ToBytesInjective(g.mode, h.mode, 8);
    RawDecodes(ToBytes(g.size, 8), ToBytes(h.size, 8), gd, hd);
    ToBytesInjective(g.size, h.size, 8);
    RawDecodes(g.digest, h.digest, x, y);
  }

  lemma RegroupEntry(a: Bytes, b: Bytes, c: Bytes, d: Bytes, x: Bytes)
    ensures a + b + c + d + x == a + (b + (c + (d + x)))
  {
  }

  predicate TextFirst(x: Bytes) { |x| >= 2 && x[0] == 0 && x[1] == 1 }

  /** A text separator followed by a text marker is not the start of a file entry. */
  lemma SeparatorIsNoEntry(sep: Bytes, rest: Bytes, p: Bytes, h: FileHash, y: Bytes)
    requires NullFree(sep) && NullFree(p) && TextFirst(rest)
    ensures Encode(Text(sep)) + rest != FileEntry(p, h) + y
  {
    if Encode(Text(sep)) + rest == FileEntry(p, h) + y {
      var mode, size, digest := Encode(Raw(ToBytes(h.mode, 8))), Encode(Raw(ToBytes(h.size, 8))), Encode(Raw(h.digest));
      RegroupEntry(Encode(Text(p)), mode, size, digest, y);
      TextDecodes(sep, p, rest, mode + (size + (digest + y)));
    }
  }

  lemma EnvEntryDecodes(v: Bytes, w: Bytes, a: Option<Bytes>, b: Option<Bytes>, x: Bytes, y: Bytes)
    requires NullFree(v) && NullFree(w) && (a.Some? ==> NullFree(a.value)) && (b.Some? ==> NullFree(b.value))
    requires AtMarker(x) && AtMarker(y) && EnvEntry(v, a) + x == EnvEntry(w, b) + y
    ensures v == w && a == b && x == y
  {
    var ea, eb := Encode(EnvWord(a)), Encode(EnvWord(b));
    Regroup(Encode(Text(v)), ea, x);
    Regroup(Encode(Text(w)), eb, y);
    TextDecodes(v, w, ea + x, eb + y);
    assert (ea + x)[1] == ea[1] && (eb + y)[1] == eb[1];
    assert a.Some? == b.Some?;
    if a.Some? {
      TextDecodes(a.value, b.value, x, y);
    } else {
      Strip(ea, eb, x, y);
    }
  }

  /** A variable that is not named like the separator is not mistaken for it. */
  lemma SeparatorIsNoVariable(sep: Bytes, rest: Bytes, v: Bytes, a: Option<Bytes>, y: Bytes)
    requires NullFree(sep) && NullFree(v) && v != sep && AtMarker(rest)
    ensures Encode(Text(sep)) + rest != EnvEntry(v, a) + y
  {
    if Encode(Text(sep)) + rest == EnvEntry(v, a) + y {
      Regroup(Encode(Text(v)), Encode(EnvWord(a)), y);
      TextDecodes(sep, v, rest, Encode(EnvWord(a)) + y);
    }
  }

  // ---- Sequences of entries ----

  /** Whatever legal stream follows, two entries that start equal streams are equal. */
  ghost predicate SelfDelimiting(e: Bytes, f: Bytes) {
    forall x, y :: AtMarker(x) && AtMarker(y) && e + x == f + y ==> e == f
  }

  ghost predicate Starts(stream: Bytes, e: Bytes) {
    exists y :: AtMarker(y) && stream == e + y
  }

  ghost predicate Chunks(a: seq<Bytes>) {
    forall i :: 0 <= i < |a| ==> a[i] != [] && a[i][0] == 0
  }

  lemma FlatAtMarker(a: seq<Bytes>, x: Bytes)
    requires Chunks(a) && AtMarker(x)
    ensures AtMarker(Flat(a) + x)
  {
    if a == [] { assert Flat(a) + x == x; }
  }

  /** Two runs of self-delimiting entries, each followed by a stream no entry starts, decode alike. */
  lemma {:induction false} FlatDecodes(a: seq<Bytes>, b: seq<Bytes>, x: Bytes, y: Bytes)
    requires Chunks(a) && Chunks(b) && AtMarker(x) && AtMarker(y) && Flat(a) + x == Flat(b) + y
    requires forall i, j :: 0 <= i < |a| && 0 <= j < |b| ==> SelfDelimiting(a[i], b[j])
    requires forall i :: 0 <= i < |a| ==> !Starts(y, a[i])
    requires forall j :: 0 <= j < |b| ==> !Starts(x, b[j])
    ensures a == b && x == y
    decreases |a|
  {
    if a == [] || b == [] {
      RunEnds(a, b, x, y);
    } else {
      FirstChunk(a, b, x, y);
      FlatDecodes(a[1..], b[1..], x, y);
      assert a == [a[0]] + a[1..] && b == [b[0]] + b[1..];
    }
  }

  lemma RunEnds(a: seq<Bytes>, b: seq<Bytes>, x: Bytes, y: Bytes)
    requires a == [] || b == []
    requires Chunks(a) && Chunks(b) && AtMarker(x) && AtMarker(y) && Flat(a) + x == Flat(b) + y
    requires forall i :: 0 <= i < |a| ==> !Starts(y, a[i])
    requires forall j :: 0 <= j < |b| ==> !Starts(x, b[j])
    ensures a == b == [] && x == y
  {
    assert [] + x == x && [] + y == y;
    if a != [] { RunStarts(a, x); }
    if b != [] { RunStarts(b, y); }
  }

  lemma RunStarts(a: seq<Bytes>, x: Bytes)
    requires a != [] && Chunks(a) && AtMarker(x)
    ensures Starts(Flat(a) + x, a[0])
  {
    FlatAtMarker(a[1..], x);
    Regroup(a[0], Flat(a[1..]), x);
  }

  lemma FirstChunk(a: seq<Bytes>, b: seq<Bytes>, x: Bytes, y: Bytes)
    requires a != [] && b != [] && SelfDelimiting(a[0], b[0])
    requires Chunks(a) && Chunks(b) && AtMarker(x) && AtMarker(y) && Flat(a) + x == Flat(b) + y
    ensures a[0] == b[0] && Flat(a[1..]) + x == Flat(b[1..]) + y
  {
    FlatAtMarker(a[1..], x);
    FlatAtMarker(b[1..], y);
    Regroup(a[0], Flat(a[1..]), x);
    Regroup(b[0], Flat(b[1..]), y);
    Strip(a[0], b[0], Flat(a[1..]) + x, Flat(b[1..]) + y);
  }

  lemma FileChunksDelimit(m: map<Bytes, FileHash>, n: map<Bytes, FileHash>)
    requires WellFormedFiles(m) && WellFormedFiles(n)
    ensures
      var a, b := FileChunks(Items(m)), FileChunks(Items(n));
      && Chunks(a) && Chunks(b)
      && forall i, j :: 0 <= i < |a| && 0 <= j < |b| ==> SelfDelimiting(a[i], b[j])
  {
    var p, q := Items(m), Items(n);
    forall i, j | 0 <= i < |p| && 0 <= j < |q|
      ensures SelfDelimiting(FileEntry(p[i].0, p[i].1), FileEntry(q[j].0, q[j].1))
    {
      forall x, y | FileEntry(p[i].0, p[i].1) + x == FileEntry(q[j].0, q[j].1) + y
        ensures p[i] == q[j]
      {
        FileEntryDecodes(p[i].0, q[j].0, p[i].1, q[j].1, x, y);
      }
    }
    ChunksOfFiles(m);
    ChunksOfFiles(n);
  }

  lemma ChunksOfFiles(m: map<Bytes, FileHash>)
    ensures Chunks(FileChunks(Items(m)))
  {
    forall i | 0 <= i < |Items(m)| ensures FileChunks(Items(m))[i] != [] && FileChunks(Items(m))[i][0] == 0 {
      assert FileEntry(Items(m)[i].0, Items(m)[i].1)[0] == 0;
    }
  }

  /** Equal runs of file entries list equal files. */
  lemma SameFileChunks(m: map<Bytes, FileHash>, n: map<Bytes, FileHash>)
    requires WellFormedFiles(m) && WellFormedFiles(n) && FileChunks(Items(m)) == FileChunks(Items(n))
    ensures m == n
  {
    var p, q := Items(m), Items(n);
    assert |p| == |FileChunks(p)| == |FileChunks(q)| == |q|;
    forall i | 0 <= i < |p| ensures p[i] == q[i] {
      assert FileChunks(p)[i] == FileChunks(q)[i];
      FileEntryDecodes(p[i].0, q[i].0, p[i].1, q[i].1, [], []);
    }
    SameItemsSameMap(m, n);
  }

  predicate EnvTexts(m: map<Bytes, Option<Bytes>>) {
    forall v :: v in m ==> NullFree(v) && (m[v].Some? ==> NullFree(m[v].value))
  }

  lemma EnvChunksDelimit(m: map<Bytes, Option<Bytes>>, n: map<Bytes, Option<Bytes>>)
    requires EnvTexts(m) && EnvTexts(n)
    ensures
      var a, b := EnvChunks(Items(m)), EnvChunks(Items(n));
      && Chunks(a) && Chunks(b)
      && forall i, j :: 0 <= i < |a| && 0 <= j < |b| ==> SelfDelimiting(a[i], b[j])
  {
    var p, q := Items(m), Items(n);
    forall i, j | 0 <= i < |p| && 0 <= j < |q|
      ensures SelfDelimiting(EnvEntry(p[i].0, p[i].1), EnvEntry(q[j].0, q[j].1))
    {
      forall x, y | AtMarker(x) && AtMarker(y) && EnvEntry(p[i].0, p[i].1) + x == EnvEntry(q[j].0, q[j].1) + y
        ensures p[i] == q[j]
      {
        EnvEntryDecodes(p[i].0, q[j].0, p[i].1, q[j].1, x, y);
      }
    }
    ChunksOfEnv(m);
    ChunksOfEnv(n);
  }

  lemma ChunksOfEnv(m: map<Bytes, Option<Bytes>>)
    ensures Chunks(EnvChunks(Items(m)))
  {
    forall i | 0 <= i < |Items(m)| ensures EnvChunks(Items(m))[i] != [] && EnvChunks(Items(m))[i][0] == 0 {
      assert EnvEntry(Items(m)[i].0, Items(m)[i].1)[0] == 0;
    }
  }

  lemma SameEnvChunks(m: map<Bytes, Option<Bytes>>, n: map<Bytes, Option<Bytes>>)
    requires EnvTexts(m) && EnvTexts(n) && EnvChunks(Items(m)) == EnvChunks(Items(n))
    ensures m == n
  {
    var p, q := Items(m), Items(n);
    assert |p| == |EnvChunks(p)| == |EnvChunks(q)| == |q|;
    forall i | 0 <= i < |p| ensures p[i] == q[i] {
      assert EnvChunks(p)[i] == EnvChunks(q)[i];
      EnvEntryDecodes(p[i].0, q[i].0, p[i].1, q[i].1, [], []);
    }
    SameItemsSameMap(m, n);
  }

  predicate OverrideTexts(m: map<Bytes, Bytes>) {
    forall v :: v in m ==> NullFree(v) && NullFree(m[v])
  }

  lemma EnvAtMarker(m: map<Bytes, Option<Bytes>>)
    ensures AtMarker(EnvBody(m))
  {
    ChunksOfEnv(m);
    FlatAtMarker(EnvChunks(Items(m)), []);
    assert Flat(EnvChunks(Items(m))) + [] == Flat(EnvChunks(Items(m)));
  }

  /** At the end of a stream no separator is needed. */
  lemma LastEnvDecodes(m: map<Bytes, Option<Bytes>>, n: map<Bytes, Option<Bytes>>)
    requires EnvTexts(m) && EnvTexts(n) && EnvBody(m) == EnvBody(n)
    ensures m == n
  {
    EnvChunksDelimit(m, n);
    var a, b := EnvChunks(Items(m)), EnvChunks(Items(n));
    assert Flat(a) + [] == Flat(b) + [];
    FlatDecodes(a, b, [], []);
    SameEnvChunks(m, n);
  }

  lemma AsEnvInjective(m: map<Bytes, Bytes>, n: map<Bytes, Bytes>)
    requires AsEnv(m) == AsEnv(n)
    ensures m == n
  {
    assert m.Keys == AsEnv(m).Keys == n.Keys;
    forall v | v in m ensures m[v] == n[v] { assert AsEnv(m)[v] == Some(m[v]) && AsEnv(n)[v] == Some(n[v]); }
  }

  /** The sorted items of a map determine the map. */
  lemma SameItemsSameMap<V>(m: map<Bytes, V>, n: map<Bytes, V>)
    requires Items(m) == Items(n)
    ensures m == n
  {
    forall k | k in m ensures k in n && n[k] == m[k] { ItemOf(m, k); }
    forall k | k in n ensures k in m { ItemOf(n, k); }
    assert m.Keys == n.Keys;
  }

  lemma ItemOf<V>(m: map<Bytes, V>, k: Bytes)
    requires k in m
    ensures (k, m[k]) in Items(m)
  {
    var keys := Sorted(m.Keys);
    assert k in keys;
    var i :| 0 <= i < |keys| && keys[i] == k;
    assert Items(m)[i] == (k, m[k]);
  }

  // ---- The theorems ----

  /** The output stream of `with_out_hashes` determines path, mode, size and digest of every output. */
  lemma OutStreamDecodes(m: map<Bytes, FileHash>, n: map<Bytes, FileHash>)
    requires WellFormedFiles(m) && WellFormedFiles(n) && OutStream(m) == OutStream(n)
    ensures m == n
  {
    FileChunksDelimit(m, n);
    assert OutStream(m) + [] == OutStream(n) + [];
    FlatDecodes(FileChunks(Items(m)), FileChunks(Items(n)), [], []);
    SameFileChunks(m, n);
  }

  /** No variable of the map starts this stream. */
  ghost predicate EndsEnv(m: map<Bytes, Option<Bytes>>, x: Bytes) {
    AtMarker(x) && forall i :: 0 <= i < |EnvChunks(Items(m))| ==> !Starts(x, EnvChunks(Items(m))[i])
  }

  lemma EnvBodyDecodes(m: map<Bytes, Option<Bytes>>, n: map<Bytes, Option<Bytes>>, x: Bytes, y: Bytes)
    requires EnvTexts(m) && EnvTexts(n) && EndsEnv(m, y) && EndsEnv(n, x)
    requires EnvBody(m) + x == EnvBody(n) + y
    ensures m == n && x == y
  {
    EnvChunksDelimit(m, n);
    FlatDecodes(EnvChunks(Items(m)), EnvChunks(Items(n)), x, y);
    SameEnvChunks(m, n);
  }

  lemma SeparatorEndsEnv(m: map<Bytes, Option<Bytes>>, sep: Bytes, rest: Bytes)
    requires NullFree(sep) && sep !in m && EnvTexts(m) && AtMarker(rest)
    ensures EndsEnv(m, Encode(Text(sep)) + rest)
  {
    forall i, y | 0 <= i < |Items(m)| ensures Encode(Text(sep)) + rest != EnvEntry(Items(m)[i].0, Items(m)[i].1) + y {
      SeparatorIsNoVariable(sep, rest, Items(m)[i].0, Items(m)[i].1, y);
    }
  }

  lemma EnvSectionDecodes(
    m: map<Bytes, Option<Bytes>>, o: map<Bytes, Bytes>, n: map<Bytes, Option<Bytes>>, p: map<Bytes, Bytes>, sep: Bytes)
    requires NullFree(sep) && sep !in m && sep !in n && EnvTexts(m) && EnvTexts(n) && OverrideTexts(o) && OverrideTexts(p)
    requires EnvSection(m, sep, o) == EnvSection(n, sep, p)
    ensures m == n && o == p
  {
    var x, y := EnvBody(AsEnv(o)), EnvBody(AsEnv(p));
    EnvAtMarker(AsEnv(o));
    EnvAtMarker(AsEnv(p));
    SeparatorEndsEnv(m, sep, y);
    SeparatorEndsEnv(n, sep, x);
    EnvBodyDecodes(m, n, Encode(Text(sep)) + x, Encode(Text(sep)) + y);
    Strip(Encode(Text(sep)), Encode(Text(sep)), x, y);
    LastEnvDecodes(AsEnv(o), AsEnv(p));
    AsEnvInjective(o, p);
  }

  /** Everything after `__env_vars__` starts with a text marker. */
  lemma EnvSectionIsText(m: map<Bytes, Option<Bytes>>, sep: Bytes, o: map<Bytes, Bytes>)
    ensures TextFirst(EnvSection(m, sep, o))
  {
    var chunks := EnvChunks(Items(m));
    if chunks == [] {
      assert Flat(chunks) == [];
    } else {
      assert chunks[0] == EnvEntry(Items(m)[0].0, Items(m)[0].1);
      assert chunks[0][0] == 0 && chunks[0][1] == 1;
    }
  }

  lemma FileSectionDecodes(m: map<Bytes, FileHash>, n: map<Bytes, FileHash>, sep: Bytes, x: Bytes, y: Bytes)
    requires NullFree(sep) && WellFormedFiles(m) && WellFormedFiles(n) && TextFirst(x) && TextFirst(y)
    requires FileSection(m, sep, x) == FileSection(n, sep, y)
    ensures m == n && x == y
  {
    FileChunksDelimit(m, n);
    NoFileStarts(m, sep, y);
    NoFileStarts(n, sep, x);
    FlatDecodes(FileChunks(Items(m)), FileChunks(Items(n)), Encode(Text(sep)) + x, Encode(Text(sep)) + y);
    SameFileChunks(m, n);
    Strip(Encode(Text(sep)), Encode(Text(sep)), x, y);
  }

  lemma NoFileStarts(m: map<Bytes, FileHash>, sep: Bytes, rest: Bytes)
    requires NullFree(sep) && WellFormedFiles(m) && TextFirst(rest)
    ensures forall i :: 0 <= i < |FileChunks(Items(m))| ==> !Starts(Encode(Text(sep)) + rest, FileChunks(Items(m))[i])
  {
    forall i, y | 0 <= i < |Items(m)| ensures Encode(Text(sep)) + rest != FileEntry(Items(m)[i].0, Items(m)[i].1) + y {
      SeparatorIsNoEntry(sep, rest, Items(m)[i].0, Items(m)[i].1, y);
    }
  }

  lemma InputsDecode(a: Ingredients, b: Ingredients)
    requires WellFormed(a) && WellFormed(b) && ENV_OVERRIDES !in a.envValues && ENV_OVERRIDES !in b.envValues
    requires Inputs(a) == Inputs(b)
    ensures a.inpHashes == b.inpHashes && a.envValues == b.envValues && a.envOverrides == b.envOverrides
  {
    var ea, eb := EnvSection(a.envValues, ENV_OVERRIDES, a.envOverrides), EnvSection(b.envValues, ENV_OVERRIDES, b.envOverrides);
    Strip(Encode(Text(INP_PATHS)), Encode(Text(INP_PATHS)),
          FileSection(a.inpHashes, ENV_VARS, ea), FileSection(b.inpHashes, ENV_VARS, eb));
    EnvSectionIsText(a.envValues, ENV_OVERRIDES, a.envOverrides);
    EnvSectionIsText(b.envValues, ENV_OVERRIDES, b.envOverrides);
    FileSectionDecodes(a.inpHashes, b.inpHashes, ENV_VARS, ea, eb);
    EnvSectionDecodes(a.envValues, a.envOverrides, b.envValues, b.envOverrides, ENV_OVERRIDES);
  }

  /** The input stream of `from_inp` determines every ingredient. */
  lemma InpStreamDecodes(a: Ingredients, b: Ingredients)
    requires WellFormed(a) && WellFormed(b) && ENV_OVERRIDES !in a.envValues && ENV_OVERRIDES !in b.envValues
    requires InpStream(a) == InpStream(b)
    ensures a == b
  {
    var sa, sb := Encode(Raw([if a.shell then 1 else 0])), Encode(Raw([if b.shell then 1 else 0]));
    TextDecodes(a.name, b.name, Encode(Text(SHELL)) + sa + Inputs(a), Encode(Text(SHELL)) + sb + Inputs(b));
    Regroup(Encode(Text(SHELL)), sa, Inputs(a));
    Regroup(Encode(Text(SHELL)), sb, Inputs(b));
    Strip(Encode(Text(SHELL)), Encode(Text(SHELL)), sa + Inputs(a), sb + Inputs(b));
    RawDecodes([if a.shell then 1 else 0], [if b.shell then 1 else 0], Inputs(a), Inputs(b));
    assert [if a.shell then 1 else 0][0] == [if b.shell then 1 else 0][0];
    InputsDecode(a, b);
  }

  predicate UsesNames(x: Ingredients, names: set<Bytes>) {
    WellFormed(x) && x.envValues.Keys <= names
  }

  /** Streams over environment dependencies with these names are uniquely decodable. */
  ghost predicate UniquelyDecodable(names: set<Bytes>) {
    forall a, b :: UsesNames(a, names) && UsesNames(b, names) && InpStream(a) == InpStream(b) ==> a == b
  }

  /** The encoding is collision-free exactly when no environment dependency may bear the separator's name. */
  lemma UniquelyDecodableIff(names: set<Bytes>)
    ensures UniquelyDecodable(names) <==> ENV_OVERRIDES !in names
  {
    if ENV_OVERRIDES !in names {
      forall a, b | UsesNames(a, names) && UsesNames(b, names) && InpStream(a) == InpStream(b) ensures a == b
      {
        InpStreamDecodes(a, b);
      }
    } else {
      SeparatorNameCollides(0x78);
      assert VariableNamedLikeSeparator(0x78) != OverrideWithSeparatorValue(0x78);
    }
  }

  /** A dependency on a variable called `__env_overrides__`, with no overrides. */
  function VariableNamedLikeSeparator(c: byte): Ingredients {
    Ingredients([], false, map[], map[ENV_OVERRIDES := Some([c])], map[])
  }

  /** No dependency, and an override whose value is `__env_overrides__`. */
  function OverrideWithSeparatorValue(c: byte): Ingredients {
    Ingredients([], false, map[], map[], map[[c] := ENV_OVERRIDES])
  }

  lemma SortedSingleton(k: Bytes)
    ensures Sorted({k}) == [k] && Sorted({}) == []
  {
    assert Least({k}) == k && {k} - {k} == {};
  }

  lemma SeparatorNameCollides(c: byte)
    requires c != 0
    ensures WellFormed(VariableNamedLikeSeparator(c)) && WellFormed(OverrideWithSeparatorValue(c))
    ensures InpStream(VariableNamedLikeSeparator(c)) == InpStream(OverrideWithSeparatorValue(c))
  {
    EnvSectionsCollide(ENV_OVERRIDES, [c]);
  }

  lemma EnvSectionsCollide(sep: Bytes, v: Bytes)
    ensures EnvSection(map[sep := Some(v)], sep, map[]) == EnvSection(map[], sep, map[v := sep])
  {
    OneEntry(sep, v);
    OneEntry(v, sep);
    assert AsEnv(map[v := sep]) == map[v := Some(sep)];
    var free: map<Bytes, Bytes> := map[];
    assert AsEnv(free).Keys == {};
    NoEntry(map[]);
    NoEntry(AsEnv(free));
    SeparatorTwice(Encode(Text(sep)), Encode(Text(v)));
  }

  lemma SeparatorTwice(s: Bytes, t: Bytes)
    ensures (s + t) + (s + []) == [] + (s + (t + s))
  {
  }

  lemma OneEntry(k: Bytes, v: Bytes)
    ensures EnvBody(map[k := Some(v)]) == Encode(Text(k)) + Encode(Text(v))
  {
    var m := map[k := Some(v)];
    SortedSingleton(k);
    assert m.Keys == {k};
    assert EnvChunks(Items(m)) == [EnvEntry(k, Some(v))];
    FlatOne(EnvEntry(k, Some(v)));
  }

  lemma NoEntry(m: map<Bytes, Option<Bytes>>)
    requires m.Keys == {}
    ensures EnvBody(m) == []
  {
    assert |Items(m)| == 0;
  }

  lemma FlatOne(c: Bytes)
    ensures Flat([c]) == c
  {
    assert [c][1..] == [];
  }
}
