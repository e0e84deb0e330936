/** hash.py: the byte stream fed to SHA-256 for a step determines the ingredients. */
module StepHash {
  import opened Basics
  import opened Bytewise
  import opened BigEndian

  // ---- Words ----

  datatype Word = Raw(bytes: Bytes) | Text(utf8: Bytes) | Missing

  function Encode(w: Word): Bytes {
    match w
    case Raw(b) => [0, 0] + b
    case Text(s) => [0, 1] + s
    case Missing => [0, 2]
  }

  /** The stream that the hash object has consumed. */
  class HashWords {
    var stream: Bytes

    constructor ()
      ensures stream == []
    {
      stream := [];
    }

    method Update(w: Word)
      modifies this
      ensures stream == old(stream) + Encode(w)
      ensures w.Raw? ==> stream == old(stream) + ([0, 0] + w.bytes)
      ensures w.Text? ==> stream == old(stream) + ([0, 1] + w.utf8)
      ensures w.Missing? ==> stream == old(stream) + [0, 2]
    {
      match w {
        case Raw(b) => stream := stream + [0, 0]; stream := stream + b;
        case Text(s) => stream := stream + [0, 1]; stream := stream + s;
        case Missing => stream := stream + [0, 2];
      }
      assert stream == old(stream) + Encode(w);
    }
  }

  predicate NullFree(s: Bytes) { forall i :: 0 <= i < |s| ==> s[i] != 0 }

  /** A block of known length can be stripped from both sides. */
  lemma Strip(u: Bytes, v: Bytes, x: Bytes, y: Bytes)
    requires |u| == |v| && u + x == v + y
    ensures u == v && x == y
  {
    assert u == (u + x)[..|u|] && v == (v + y)[..|v|];
    assert x == (u + x)[|u|..] && y == (v + y)[|v|..];
  }

  /** A text without null bytes ends where the next marker starts. */
  lemma TextEnds(u: Bytes, v: Bytes, x: Bytes, y: Bytes)
    requires NullFree(u) && NullFree(v) && u + x == v + y
    requires (x == [] || x[0] == 0) && (y == [] || y[0] == 0)
    ensures u == v && x == y
  {
    var w := u + x;
    assert w == v + y;
    assert (forall i :: 0 <= i < |u| ==> w[i] == u[i]) && (forall i :: 0 <= i < |v| ==> w[i] == v[i]);
    assert |u| < |w| ==> w[|u|] == x[0];
    assert |v| < |w| ==> w[|v|] == y[0];
    assert |u| == |v|;
    Strip(u, v, x, y);
  }

  // ---- Ingredients ----

  /** The properties of a file that take part in comparisons; `digest` is `b"u"` when unknown. */
  datatype FileHash = FileHash(digest: Bytes, mode: nat, size: nat)

  const UNKNOWN_DIGEST: Bytes := [0x75]

  predicate WellFormedHash(h: FileHash) {
    && h.mode < Pow256(8) && h.size < Pow256(8)
    && if h.mode == 0 then h.size == 0 && h.digest == UNKNOWN_DIGEST else |h.digest| == 32
  }

  datatype Ingredients = Ingredients(
    name: Bytes,
    shell: bool,
    inpHashes: map<Bytes, FileHash>,
    envValues: map<Bytes, Option<Bytes>>,
    envOverrides: map<Bytes, Bytes>)

  predicate WellFormedFiles(m: map<Bytes, FileHash>) {
    forall p :: p in m ==> NullFree(p) && WellFormedHash(m[p])
  }

  predicate WellFormed(x: Ingredients) {
    && NullFree(x.name)
    && WellFormedFiles(x.inpHashes)
    && (forall v :: v in x.envValues ==>
          NullFree(v) && (x.envValues[v].Some? ==> NullFree(x.envValues[v].value)))
    && (forall v :: v in x.envOverrides ==> NullFree(v) && NullFree(x.envOverrides[v]))
  }

  function Ascii(s: string): (b: Bytes)
    requires forall i :: 0 <= i < |s| ==> 0 < s[i] as int < 128
    ensures |b| == |s| && NullFree(b)
    ensures forall i :: 0 <= i < |s| ==> b[i] as int == s[i] as int
  {
    seq(|s|, i requires 0 <= i < |s| => s[i] as int as byte)
  }

  const SHELL := Ascii("__shell__")
  const INP_PATHS := Ascii("__inp_paths__")
  const ENV_VARS := Ascii("__env_vars__")
  const ENV_OVERRIDES := Ascii("__env_overrides__")

  // ---- The stream as a function of the ingredients ----

  /** `sorted(m.items())`. */
  function Items<V>(m: map<Bytes, V>): (items: seq<(Bytes, V)>)
    ensures |items| == |m.Keys|
    ensures forall i :: 0 <= i < |items| ==> items[i].0 in m && items[i].1 == m[items[i].0]
  {
    var keys := Sorted(m.Keys);
    assert forall i :: 0 <= i < |keys| ==> keys[i] in keys;
    seq(|keys|, i requires 0 <= i < |keys| => (keys[i], m[keys[i]]))
  }

  function FileEntry(path: Bytes, h: FileHash): Bytes {
    Encode(Text(path)) + Encode(Raw(ToBytes(h.mode, 8))) + Encode(Raw(ToBytes(h.size, 8))) + Encode(Raw(h.digest))
  }

  /** One stretch of the stream after the other. */
  function Flat(chunks: seq<Bytes>): Bytes {
    if chunks == [] then [] else chunks[0] + Flat(chunks[1..])
  }

  function FileChunks(files: seq<(Bytes, FileHash)>): seq<Bytes> {
    seq(|files|, i requires 0 <= i < |files| => FileEntry(files[i].0, files[i].1))
  }

  function EnvWord(v: Option<Bytes>): Word {
    match v
    case None => Missing
    case Some(s) => Text(s)
  }

  function EnvEntry(name: Bytes, v: Option<Bytes>): Bytes {
    Encode(Text(name)) + Encode(EnvWord(v))
  }

  function EnvChunks(vars: seq<(Bytes, Option<Bytes>)>): seq<Bytes> {
    seq(|vars|, i requires 0 <= i < |vars| => EnvEntry(vars[i].0, vars[i].1))
  }

  /** An override is hashed like a variable that always has a value. */
  function AsEnv(m: map<Bytes, Bytes>): map<Bytes, Option<Bytes>> {
    map v | v in m :: Some(m[v])
  }

  function EnvBody(m: map<Bytes, Option<Bytes>>): Bytes { Flat(EnvChunks(Items(m))) }

  function EnvSection(m: map<Bytes, Option<Bytes>>, sep: Bytes, overrides: map<Bytes, Bytes>): Bytes {
    EnvBody(m) + (Encode(Text(sep)) + EnvBody(AsEnv(overrides)))
  }

  function FileSection(m: map<Bytes, FileHash>, sep: Bytes, rest: Bytes): Bytes {
    Flat(FileChunks(Items(m))) + (Encode(Text(sep)) + rest)
  }

  function Inputs(x: Ingredients): Bytes {
    Encode(Text(INP_PATHS)) +
    FileSection(x.inpHashes, ENV_VARS, EnvSection(x.envValues, ENV_OVERRIDES, x.envOverrides))
  }

  /** The stream of `StepHash.from_inp`. */
  function InpStream(x: Ingredients): Bytes {
    Encode(Text(x.name)) +
    (Encode(Text(SHELL)) + Encode(Raw([if x.shell then 1 else 0])) + Inputs(x))
  }

  /** The stream of `StepHash.with_out_hashes`. */
  function OutStream(m: map<Bytes, FileHash>): Bytes {
    Flat(FileChunks(Items(m)))
  }

  // ---- The methods ----

  method UpdateFileHash(hw: HashWords, path: Bytes, h: FileHash)
    modifies hw
    ensures hw.stream == old(hw.stream) + FileEntry(path, h)
    ensures hw.stream == old(hw.stream) +
              (([0, 1] + path) + ([0, 0] + ToBytes(h.mode, 8)) + ([0, 0] + ToBytes(h.size, 8)) + ([0, 0] + h.digest))
  {
    hw.Update(Text(path));
    hw.Update(Raw(ToBytes(h.mode, 8)));
    hw.Update(Raw(ToBytes(h.size, 8)));
    hw.Update(Raw(h.digest));
    assert hw.stream == old(hw.stream) + FileEntry(path, h);
  }

  lemma {:induction false} FlatSnoc(chunks: seq<Bytes>, n: nat)
    requires n < |chunks|
    ensures Flat(chunks[..n + 1]) == Flat(chunks[..n]) + chunks[n]
  {
    if n == 0 {
      assert chunks[..1][1..] == [] && chunks[..0] == [];
    } else {
      FlatSnoc(chunks[1..], n - 1);
      assert chunks[..n + 1][1..] == chunks[1..][..n] && chunks[..n][1..] == chunks[1..][..n - 1];
      Regroup(chunks[0], Flat(chunks[1..][..n - 1]), chunks[n]);
    }
  }

  method UpdateFileHashes(hw: HashWords, m: map<Bytes, FileHash>)
    modifies hw
    ensures hw.stream == old(hw.stream) + OutStream(m)
  {
    var files := Items(m);
    ghost var before, chunks := hw.stream, FileChunks(files);
    for n := 0 to |files|
      invariant hw.stream == before + Flat(chunks[..n])
    {
      ghost var chunk := chunks[n];
      UpdateFileHash(hw, files[n].0, files[n].1);
      assert hw.stream == before + Flat(chunks[..n]) + chunk;
      FlatSnoc(chunks, n);
      Regroup(before, Flat(chunks[..n]), chunk);
    }
    assert chunks[..|files|] == chunks;
  }

  method UpdateEnvValue(hw: HashWords, name: Bytes, value: Option<Bytes>)
    modifies hw
    ensures hw.stream == old(hw.stream) + EnvEntry(name, value)
    ensures hw.stream == old(hw.stream) + [0, 1] + name + match value case None => [0, 2] case Some(s) => [0, 1] + s
  {
    hw.Update(Text(name));
    hw.Update(EnvWord(value));
    Regroup(old(hw.stream), Encode(Text(name)), Encode(EnvWord(value)));
  }

  method UpdateEnvValues(hw: HashWords, m: map<Bytes, Option<Bytes>>)
    modifies hw
    ensures hw.stream == old(hw.stream) + EnvBody(m)
  {
    var vars := Items(m);
    ghost var before, chunks := hw.stream, EnvChunks(vars);
    for n := 0 to |vars|
      invariant hw.stream == before + Flat(chunks[..n])
    {
      ghost var chunk := chunks[n];
      UpdateEnvValue(hw, vars[n].0, vars[n].1);
      assert hw.stream == before + Flat(chunks[..n]) + chunk;
      FlatSnoc(chunks, n);
      Regroup(before, Flat(chunks[..n]), chunk);
    }
    assert chunks[..|vars|] == chunks;
  }

  method UpdateInputs(hw: HashWords, x: Ingredients)
    modifies hw
    ensures hw.stream == old(hw.stream) + Inputs(x)
  {
    ghost var before := hw.stream;
    hw.Update(Text(INP_PATHS));
    UpdateFileHashes(hw, x.inpHashes);
    hw.Update(Text(ENV_VARS));
    UpdateEnvValues(hw, x.envValues);
    hw.Update(Text(ENV_OVERRIDES));
    UpdateEnvValues(hw, AsEnv(x.envOverrides));
    FlattenInputs(before, Encode(Text(INP_PATHS)), OutStream(x.inpHashes), Encode(Text(ENV_VARS)),
                  EnvBody(x.envValues), Encode(Text(ENV_OVERRIDES)),
                  EnvBody(AsEnv(x.envOverrides)));
  }

  lemma FlattenInputs(a: Bytes, b: Bytes, c: Bytes, d: Bytes, e: Bytes, f: Bytes, g: Bytes)
    ensures a + b + c + d + e + f + g == a + (b + (c + (d + (e + (f + g)))))
  {
  }

  lemma Unnest(a: Bytes, b: Bytes, c: Bytes, d: Bytes, e: Bytes, f: Bytes, g: Bytes, h: Bytes, i: Bytes)
    ensures a + (b + c + (d + (e + (f + (g + (h + i)))))) == a + b + c + d + e + f + g + h + i
  {
  }

  /** The stream of the ingredients, byte for byte but for the entries. */
  lemma InpStreamLayout(x: Ingredients)
    ensures InpStream(x) ==
              ([0, 1] + x.name) + ([0, 1] + Ascii("__shell__")) + ([0, 0] + [if x.shell then 1 else 0])
              + ([0, 1] + Ascii("__inp_paths__")) + OutStream(x.inpHashes)
              + ([0, 1] + Ascii("__env_vars__")) + EnvBody(x.envValues)
              + ([0, 1] + Ascii("__env_overrides__")) + EnvBody(AsEnv(x.envOverrides))
  {
    Unnest(Encode(Text(x.name)), Encode(Text(SHELL)), Encode(Raw([if x.shell then 1 else 0])), Encode(Text(INP_PATHS)),
           OutStream(x.inpHashes), Encode(Text(ENV_VARS)), EnvBody(x.envValues), Encode(Text(ENV_OVERRIDES)),
           EnvBody(AsEnv(x.envOverrides)));
  }

  method FromInp(x: Ingredients) returns (hw: HashWords)
    ensures fresh(hw) && hw.stream == InpStream(x)
  {
    hw := new HashWords();
    hw.Update(Text(x.name));
    hw.Update(Text(SHELL));
    hw.Update(Raw([if x.shell then 1 else 0]));
    UpdateInputs(hw, x);
    FlattenHead(Encode(Text(x.name)), Encode(Text(SHELL)), Encode(Raw([if x.shell then 1 else 0])), Inputs(x));
  }

  lemma FlattenHead(a: Bytes, b: Bytes, c: Bytes, d: Bytes)
    ensures [] + a + b + c + d == a + (b + c + d)
  {
  }
}
