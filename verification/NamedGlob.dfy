/** nglob.py: the results of a named glob, grouped by the substrings that its names capture. */
module NamedGlob {
  import opened Basics

  type Path = string

  /** The captured substrings, in the order of the names. */
  type Values = seq<string>

  /** The regular expression: which substrings a path captures, if it matches at all. */
  type Matcher = Path -> Option<Values>

  type Results = map<Values, set<Path>>

  predicate WellGrouped(r: Results, m: Matcher) {
    forall v :: v in r ==> r[v] != {} && forall p :: p in r[v] ==> m(p) == Some(v)
  }

  function Files(r: Results): set<Path> {
    set v, p | v in r && p in r[v] :: p
  }

  function Matching(paths: seq<Path>, m: Matcher): set<Path> {
    set p | p in Elements(paths) && m(p).Some?
  }

  function Extended(r: Results, p: Path, m: Matcher): Results {
    match m(p)
    case None => r
    case Some(v) => r[v := (if v in r then r[v] else {}) + {p}]
  }

  function Reduced(r: Results, p: Path, m: Matcher): Results {
    match m(p)
    case None => r
    case Some(v) =>
      if v !in r then r else if r[v] - {p} == {} then r - {v} else r[v := r[v] - {p}]
  }

  lemma InGroup(r: Results, m: Matcher, p: Path)
    requires WellGrouped(r, m) && p in Files(r)
    ensures m(p).Some? && m(p).value in r && p in r[m(p).value]
  {
    var v :| v in r && p in r[v];
  }

  /** The set of files determines the groups, so that comparing groups compares files. */
  lemma GroupsFollowFiles(a: Results, b: Results, m: Matcher)
    requires WellGrouped(a, m) && WellGrouped(b, m)
    ensures a == b <==> Files(a) == Files(b)
  {
    if Files(a) == Files(b) {
      SameGroups(a, b, m);
      SameGroups(b, a, m);
      assert a.Keys == b.Keys && forall v :: v in a ==> a[v] == b[v];
    }
  }

  lemma SameGroups(a: Results, b: Results, m: Matcher)
    requires WellGrouped(a, m) && WellGrouped(b, m) && Files(a) == Files(b)
    ensures forall v :: v in a ==> v in b && a[v] <= b[v]
  {
    forall v | v in a ensures v in b && a[v] <= b[v] {
      forall p | p in a[v] ensures v in b && p in b[v] {
        assert p in Files(a);
        InGroup(b, m, p);
      }
      var q := Member(a[v]);
    }
  }

  lemma ExtendOne(r: Results, p: Path, m: Matcher)
    requires WellGrouped(r, m)
    ensures WellGrouped(Extended(r, p, m), m)
    ensures Files(Extended(r, p, m)) == Files(r) + if m(p).Some? then {p} else {}
  {
    var e := Extended(r, p, m);
    forall q ensures q in Files(e) <==> q in Files(r) || (m(p).Some? && q == p) {
      if q in Files(r) { InGroup(r, m, q); assert q in e[m(q).value]; }
      if m(p).Some? && q == p { assert q in e[m(p).value]; }
    }
  }

  lemma ReduceOne(r: Results, p: Path, m: Matcher)
    requires WellGrouped(r, m)
    ensures WellGrouped(Reduced(r, p, m), m)
    ensures Files(Reduced(r, p, m)) == Files(r) - {p}
  {
    var e := Reduced(r, p, m);
    forall q ensures q in Files(e) <==> q in Files(r) && q != p {
      if q in Files(r) {
        InGroup(r, m, q);
        if q != p { assert m(q).value in e && q in e[m(q).value]; }
      }
    }
  }

  function ExtendedAll(r: Results, paths: seq<Path>, m: Matcher): Results {
    if paths == [] then r else Extended(ExtendedAll(r, paths[..|paths| - 1], m), paths[|paths| - 1], m)
  }

  function ReducedAll(r: Results, paths: seq<Path>, m: Matcher): Results {
    if paths == [] then r else Reduced(ReducedAll(r, paths[..|paths| - 1], m), paths[|paths| - 1], m)
  }

  lemma {:induction false} ExtendAll(r: Results, paths: seq<Path>, m: Matcher)
    requires WellGrouped(r, m)
    ensures WellGrouped(ExtendedAll(r, paths, m), m)
    ensures Files(ExtendedAll(r, paths, m)) == Files(r) + Matching(paths, m)
  {
    if paths != [] {
      ExtendAll(r, paths[..|paths| - 1], m);
      ExtendOne(ExtendedAll(r, paths[..|paths| - 1], m), paths[|paths| - 1], m);
      ElementsLast(paths);
    }
  }

  lemma {:induction false} ReduceAll(r: Results, paths: seq<Path>, m: Matcher)
    requires WellGrouped(r, m)
    ensures WellGrouped(ReducedAll(r, paths, m), m)
    ensures Files(ReducedAll(r, paths, m)) == Files(r) - Elements(paths)
  {
    if paths != [] {
      ReduceAll(r, paths[..|paths| - 1], m);
      ReduceOne(ReducedAll(r, paths[..|paths| - 1], m), paths[|paths| - 1], m);
      ElementsLast(paths);
    }
  }

  class NamedGlob {
    const matcher: Matcher
    var results: Results

    constructor (matcher: Matcher, results: Results)
      ensures this.matcher == matcher && this.results == results
    {
      this.matcher, this.results := matcher, results;
    }

    ghost predicate Valid()
      reads this
    {
      WellGrouped(results, matcher)
    }

    method Extend(paths: seq<Path>)
      requires Valid()
      modifies this
      ensures results == ExtendedAll(old(results), paths, matcher)
      ensures Valid() && Files(results) == old(Files(results)) + Matching(paths, matcher)
    {
      for i := 0 to |paths|
        invariant results == ExtendedAll(old(results), paths[..i], matcher)
      {
        assert paths[..i + 1][..i] == paths[..i];
        var values := matcher(paths[i]);
        if values.Some? {
          if values.value !in results {
            results := results[values.value := {}];
          }
          results := results[values.value := results[values.value] + {paths[i]}];
        }
      }
      assert paths[..|paths|] == paths;
      ExtendAll(old(results), paths, matcher);
    }

    method Reduce(paths: seq<Path>)
      requires Valid()
      modifies this
      ensures Valid() && Files(results) == old(Files(results)) - Elements(paths)
    {
      for i := 0 to |paths|
        invariant results == ReducedAll(old(results), paths[..i], matcher)
      {
        assert paths[..i + 1][..i] == paths[..i];
        var values := matcher(paths[i]);
        if values.Some? && values.value in results {
          results := results[values.value := results[values.value] - {paths[i]}];
          if results[values.value] == {} {
            results := results - {values.value};
          }
        }
      }
      assert paths[..|paths|] == paths;
      ReduceAll(old(results), paths, matcher);
    }

    /** A path that is both added and deleted ends up deleted. `None` when no file comes or goes. */
    method WillChange(deleted: seq<Path>, added: seq<Path>) returns (evolved: NamedGlob?)
      requires Valid()
      ensures var after := Files(results) + Matching(added, matcher) - Elements(deleted);
              && (evolved == null <==> after == Files(results))
              && (evolved != null ==>
                    fresh(evolved) && evolved.matcher == matcher && evolved.Valid() && Files(evolved.results) == after)
    {
      var copy := new NamedGlob(matcher, results);
      copy.Extend(added);
      copy.Reduce(deleted);
      GroupsFollowFiles(copy.results, results, matcher);
      evolved := if copy.results == results then null else copy;
    }
  }

  /** A scan that is split in two, or yields the paths in another order or twice, ends in the same results. */
  lemma OrderIsIrrelevant(r: Results, m: Matcher, xs: seq<Path>, ys: seq<Path>, zs: seq<Path>)
    requires WellGrouped(r, m) && forall p :: p in zs <==> p in xs || p in ys
    ensures ExtendedAll(ExtendedAll(r, xs, m), ys, m) == ExtendedAll(r, zs, m)
  {
    ExtendAll(r, xs, m);
    ExtendAll(ExtendedAll(r, xs, m), ys, m);
    ExtendAll(r, zs, m);
    assert Matching(xs, m) + Matching(ys, m) == Matching(zs, m);
    GroupsFollowFiles(ExtendedAll(ExtendedAll(r, xs, m), ys, m), ExtendedAll(r, zs, m), m);
  }
}
