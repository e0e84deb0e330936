/**
 * finalize.py and clean.py: removal of empty directories, upwards as long as the parent is left empty.
 * The stack of one and the upward walk of the other end in the same tree, whatever the order of the
 * directories they start from.
 */
module PruneDirs {
  import opened Basics

  /** The names from the root of the project down; the root itself is the empty path. */
  type Path = seq<string>

  datatype Tree = Tree(dirs: set<Path>, files: set<Path>)

  function Parent(p: Path): Path
    requires p != []
  {
    p[..|p| - 1]
  }

  predicate IsIn(p: Path, d: Path) {
    p != [] && Parent(p) == d
  }

  /** `p` is `d` or lies below it. */
  predicate Under(d: Path, p: Path) {
    |d| <= |p| && p[..|d|] == d
  }

  ghost predicate Valid(t: Tree) {
    && t.dirs !! t.files
    && forall p :: p in t.dirs + t.files ==> p != [] && (Parent(p) == [] || Parent(p) in t.dirs)
  }

  predicate Empty(t: Tree, d: Path) {
    forall p :: p in t.dirs + t.files ==> !IsIn(p, d)
  }

  predicate Leaf(t: Tree, d: Path) {
    forall p :: p in t.dirs ==> !IsIn(p, d)
  }

  /** What goes: a directory without files anywhere below it, all of whose lowest directories are candidates. */
  predicate Doomed(t: Tree, candidates: set<Path>, d: Path) {
    && d in t.dirs
    && (forall f :: f in t.files ==> !Under(d, f))
    && (forall e :: e in t.dirs && Under(d, e) && Leaf(t, e) ==> e in candidates)
  }

  function DoomedDirs(t: Tree, candidates: set<Path>): set<Path> {
    set d | d in t.dirs && Doomed(t, candidates, d)
  }

  function Pruned(t: Tree, candidates: set<Path>): Tree {
    t.(dirs := t.dirs - DoomedDirs(t, candidates))
  }

  // ---- Invariant of both loops ----

  ghost predicate HasGoneChild(t: Tree, dirs: set<Path>, x: Path) {
    exists e :: e in t.dirs && e !in dirs && IsIn(e, x)
  }

  /** `dirs` is what is left of the directories of `t`, and `todo` holds the directories still to look at. */
  ghost predicate PruneInv(t: Tree, candidates: set<Path>, dirs: set<Path>, todo: set<Path>) {
    && Valid(t) && dirs <= t.dirs
    && (forall r :: r in t.dirs && r !in dirs ==> Doomed(t, candidates, r))
    && (forall x :: x in todo ==> x in candidates || HasGoneChild(t, dirs, x))
    && (forall d :: d in dirs && Doomed(t, candidates, d) && Empty(Tree(dirs, t.files), d) ==> d in todo)
  }

  lemma SameLength(d: Path, e: Path)
    requires Under(d, e) && |d| == |e|
    ensures d == e
  {
  }

  lemma UnderChild(d: Path, e: Path)
    requires Under(d, e) && e != d
    ensures |e| > |d| && IsIn(e[..|d| + 1], d) && Under(e[..|d| + 1], e) && Under(d, e[..|d| + 1])
  {
    assert e[..|d| + 1][..|d|] == e[..|d|];
    if |e| == |d| { SameLength(d, e); }
  }

  /** Every path between a directory and something below it is a directory. */
  lemma {:induction false} AncestorIsDir(t: Tree, p: Path, n: nat)
    requires Valid(t) && p in t.dirs + t.files && 0 < n < |p|
    ensures p[..n] in t.dirs
    decreases |p| - n
  {
    if n == |p| - 1 {
      assert Parent(p) == p[..n];
    } else {
      AncestorIsDir(t, p, n + 1);
      assert Parent(p[..n + 1]) == p[..n];
    }
  }

  /** A directory that is empty now, and that was put on the list, was doomed from the start. */
  lemma EmptyIsDoomed(t: Tree, candidates: set<Path>, dirs: set<Path>, todo: set<Path>, d: Path)
    requires PruneInv(t, candidates, dirs, todo) && d in todo && d in dirs && Empty(Tree(dirs, t.files), d)
    ensures Doomed(t, candidates, d)
  {
    forall f | f in t.files ensures !Under(d, f) {
      if Under(d, f) { BelowEmpty(t, candidates, dirs, todo, d, f); }
    }
    forall e | e in t.dirs && Under(d, e) && Leaf(t, e) ensures e in candidates {
      if e != d { BelowEmpty(t, candidates, dirs, todo, d, e); }
    }
  }

  /** Everything below an empty directory lies in a child that is gone. */
  lemma BelowEmpty(t: Tree, candidates: set<Path>, dirs: set<Path>, todo: set<Path>, d: Path, p: Path)
    requires PruneInv(t, candidates, dirs, todo) && d in dirs && Empty(Tree(dirs, t.files), d)
    requires p in t.dirs + t.files && Under(d, p) && p != d
    ensures p in t.dirs && (Leaf(t, p) ==> p in candidates)
  {
    UnderChild(d, p);
    var child := p[..|d| + 1];
    if |p| == |d| + 1 {
      assert child == p;
    } else {
      AncestorIsDir(t, p, |d| + 1);
    }
    assert child !in dirs && child !in t.files;
    assert Doomed(t, candidates, child);
  }

  lemma NotRoot(t: Tree, p: Path)
    requires Valid(t) && p in t.dirs
    ensures p != []
  {
    assert p in t.dirs + t.files;
  }

  lemma RemoveKeepsInv(t: Tree, candidates: set<Path>, dirs: set<Path>, todo: set<Path>, d: Path, next: set<Path>)
    requires PruneInv(t, candidates, dirs, todo) && d in todo && d in dirs && Empty(Tree(dirs, t.files), d)
    requires d != [] && (forall x :: x in next ==> x in todo || x == Parent(d))
    requires (forall x :: x in todo && x != d ==> x in next) && (Parent(d) != [] ==> Parent(d) in next)
    ensures PruneInv(t, candidates, dirs - {d}, next)
  {
    EmptyIsDoomed(t, candidates, dirs, todo, d);
    var left := dirs - {d};
    forall x | x in next ensures x in candidates || HasGoneChild(t, left, x) {
      if x == Parent(d) {
        assert IsIn(d, x) && d !in left;
      } else if x !in candidates {
        var e :| e in t.dirs && e !in dirs && IsIn(e, x);
        assert e !in left;
      }
    }
    forall c | c in left && Doomed(t, candidates, c) && Empty(Tree(left, t.files), c) ensures c in next {
      if !Empty(Tree(dirs, t.files), c) {
        assert IsIn(d, c) && c == Parent(d);
        NotRoot(t, c);
      }
    }
  }

  lemma SkipKeepsInv(t: Tree, candidates: set<Path>, dirs: set<Path>, todo: set<Path>, d: Path, next: set<Path>)
    requires PruneInv(t, candidates, dirs, todo) && !(d in dirs && Empty(Tree(dirs, t.files), d))
    requires next <= todo && forall x :: x in todo && x != d ==> x in next
    ensures PruneInv(t, candidates, dirs, next)
  {
  }

  lemma InitInv(t: Tree, candidates: set<Path>)
    requires Valid(t)
    ensures PruneInv(t, candidates, t.dirs, candidates)
  {
    forall d | d in t.dirs && Doomed(t, candidates, d) && Empty(t, d) ensures d in candidates {
      assert Under(d, d) && Leaf(t, d);
    }
    assert t == Tree(t.dirs, t.files);
  }

  /** What lies in a doomed directory is doomed. */
  lemma ChildIsDoomed(t: Tree, candidates: set<Path>, d: Path, e: Path)
    requires Doomed(t, candidates, d) && e in t.dirs && IsIn(e, d)
    ensures Doomed(t, candidates, e)
  {
    forall p | Under(e, p) ensures Under(d, p) { assert p[..|e|][..|d|] == p[..|d|]; }
  }

  /** Of the doomed directories that are left, a deepest one is empty and on the list. */
  lemma DoneWhenListEmpty(t: Tree, candidates: set<Path>, dirs: set<Path>)
    requires PruneInv(t, candidates, dirs, {})
    ensures dirs == Pruned(t, candidates).dirs
  {
    var left := set d | d in dirs && Doomed(t, candidates, d);
    if left != {} {
      var d := Deepest(left);
      forall p | p in dirs + t.files ensures !IsIn(p, d) {
        if IsIn(p, d) {
          assert Under(d, p);
          if p in dirs { ChildIsDoomed(t, candidates, d, p); }
        }
      }
      assert Empty(Tree(dirs, t.files), d);
    }
  }

  lemma {:induction false} Deepest(s: set<Path>) returns (d: Path)
    requires s != {}
    ensures d in s && forall e :: e in s ==> |e| <= |d|
  {
    d :| d in s;
    var rest := s - {d};
    if rest != {} {
      var r := Deepest(rest);
      if |r| > |d| { d := r; }
    } else {
      assert s == {d};
    }
  }

  // ---- What the pruned tree is like ----

  /** Every candidate, and every parent of something removed, is gone or not empty, unless it is the root. */
  lemma NothingLeftToPrune(t: Tree, candidates: set<Path>, d: Path)
    requires Valid(t) && d in t.dirs
    requires || d in candidates
             || exists e :: e in t.dirs && e !in Pruned(t, candidates).dirs && e != [] && e[..|e| - 1] == d
    ensures d in Pruned(t, candidates).dirs ==>
              exists p :: (p in Pruned(t, candidates).dirs || p in t.files) && p != [] && p[..|p| - 1] == d
  {
    var left := Pruned(t, candidates).dirs;
    if e :| e in t.dirs && e !in left && e != [] && e[..|e| - 1] == d { assert IsIn(e, d); }
    if d in left && Empty(Pruned(t, candidates), d) {
      PrunedIsInv(t, candidates);
      assert Tree(left, t.files) == Pruned(t, candidates);
      EmptyIsDoomed(t, candidates, left, candidates + {d}, d);
    }
  }

  /** What is removed holds no file, however deep, and its innermost directories were all candidates. */
  lemma RemovedHeldNothing(t: Tree, candidates: set<Path>, d: Path)
    requires d in t.dirs && d !in Pruned(t, candidates).dirs
    ensures forall f :: f in t.files ==> !(d <= f)
    ensures forall e :: e in t.dirs && d <= e && (forall c :: c in t.dirs && c != [] ==> c[..|c| - 1] != e)
              ==> e in candidates
  {
    forall p: Path ensures Under(d, p) <==> d <= p {
      if Under(d, p) { assert d == p[..|d|]; }
    }
  }

  lemma PrunedIsInv(t: Tree, candidates: set<Path>)
    requires Valid(t)
    ensures forall d :: d in candidates || HasGoneChild(t, Pruned(t, candidates).dirs, d) ==>
              PruneInv(t, candidates, Pruned(t, candidates).dirs, candidates + {d})
  {
  }

  /** The files and the structure of the tree survive: no entry loses its parent directory. */
  lemma PrunedIsValid(t: Tree, candidates: set<Path>)
    requires Valid(t)
    ensures Valid(Pruned(t, candidates)) && Pruned(t, candidates).files == t.files
  {
    var u := Pruned(t, candidates);
    forall p | p in u.dirs + u.files ensures p != [] && (Parent(p) == [] || Parent(p) in u.dirs) {
      assert p in t.dirs + t.files;
      if Parent(p) != [] && Doomed(t, candidates, Parent(p)) {
        assert Under(Parent(p), p);
        if p in t.dirs { ChildIsDoomed(t, candidates, Parent(p), p); }
      }
    }
  }

  /** Pruning again with the same candidates removes nothing more. */
  lemma PruningIsIdempotent(t: Tree, candidates: set<Path>)
    requires Valid(t)
    ensures Pruned(Pruned(t, candidates), candidates) == Pruned(t, candidates)
  {
    var u := Pruned(t, candidates);
    forall d | d in u.dirs ensures !Doomed(u, candidates, d) { SurvivorStays(t, candidates, d); }
  }

  lemma SurvivorStays(t: Tree, candidates: set<Path>, d: Path)
    requires d in t.dirs && !Doomed(t, candidates, d)
    ensures !Doomed(Pruned(t, candidates), candidates, d)
  {
    var u := Pruned(t, candidates);
    if f :| f in t.files && Under(d, f) {
      assert f in u.files;
    } else {
      var e :| e in t.dirs && Under(d, e) && Leaf(t, e) && e !in candidates;
      assert Under(e, e) && e in u.dirs && Leaf(u, e);
    }
  }

  // ---- The two loops ----

  class FileSystem {
    var dirs: set<Path>
    var files: set<Path>

    constructor (t: Tree)
      ensures State() == t
    {
      dirs, files := t.dirs, t.files;
    }

    function State(): Tree
      reads this
    {
      Tree(dirs, files)
    }

    /** Only an empty directory can be removed. */
    method RemoveDir(d: Path)
      requires d in dirs && Empty(State(), d)
      modifies `dirs
      ensures dirs == old(dirs) - {d}
    {
      dirs := dirs - {d};
    }

    /** Looks at one directory; `rest` is what else is on the list. */
    method Visit(path: Path, ghost t: Tree, ghost c: set<Path>, ghost rest: set<Path>) returns (removed: bool)
      requires files == t.files && PruneInv(t, c, dirs, rest + {path})
      modifies `dirs
      ensures removed <==> path in old(dirs) && Empty(old(State()), path)
      ensures dirs == if removed then old(dirs) - {path} else old(dirs)
      ensures removed ==> path != [] && |dirs| < |old(dirs)|
      ensures PruneInv(t, c, dirs, rest + if removed && Parent(path) != [] then {Parent(path)} else {})
    {
      removed := path in dirs && Empty(State(), path);
      ghost var before := dirs;
      if removed {
        NotRoot(t, path);
        RemoveDir(path);
        RemoveKeepsInv(t, c, before, rest + {path}, path, rest + if Parent(path) != [] then {Parent(path)} else {});
      } else {
        SkipKeepsInv(t, c, dirs, rest + {path}, path, rest + {});
      }
    }

    /** `_prune_empty_dirs`: a stack, on which the parent of a removed directory is pushed. */
    method PruneEmptyDirs(candidates: seq<Path>)
      requires Valid(State())
      modifies this
      ensures State() == Pruned(old(State()), Elements(candidates))
    {
      ghost var t, c := State(), Elements(candidates);
      var todo := candidates;
      InitInv(t, c);
      while todo != []
        invariant files == t.files && PruneInv(t, c, dirs, Elements(todo))
        decreases |dirs|, |todo|
      {
        var path := todo[|todo| - 1];
        ElementsLast(todo);
        todo := todo[..|todo| - 1];
        var removed := Visit(path, t, c, Elements(todo));
        if removed && Parent(path) != [] {
          todo := todo + [Parent(path)];
          ElementsLast(todo);
          assert todo[..|todo| - 1] + [Parent(path)] == todo;
        }
        assert Elements(todo) + {} == Elements(todo);
      }
      DoneWhenListEmpty(t, c, dirs);
    }

    /** The walk of `clean` from each parent of a removed file upwards, with `--commit`. */
    method RemoveEmptyParents(parents: seq<Path>)
      requires Valid(State())
      modifies this
      ensures State() == Pruned(old(State()), Elements(parents))
    {
      ghost var t, c := State(), Elements(parents);
      InitInv(t, c);
      for i := 0 to |parents|
        invariant files == t.files && PruneInv(t, c, dirs, Elements(parents[i..]))
      {
        var parent := parents[i];
        assert Elements(parents[i..]) == Elements(parents[i + 1..]) + {parent};
        ClimbFrom(parent, t, c, Elements(parents[i + 1..]));
      }
      DoneWhenListEmpty(t, c, dirs);
    }

    /** The inner loop of `clean`. */
    method ClimbFrom(start: Path, ghost t: Tree, ghost c: set<Path>, ghost rest: set<Path>)
      requires files == t.files && PruneInv(t, c, dirs, rest + {start})
      modifies `dirs
      ensures PruneInv(t, c, dirs, rest)
    {
      var parent := start;
      while parent != [] && parent in dirs && Empty(State(), parent)
        invariant files == t.files && PruneInv(t, c, dirs, rest + {parent})
        decreases |dirs|
      {
        ghost var before := dirs;
        RemoveDir(parent);
        RemoveKeepsInv(t, c, before, rest + {parent}, parent, rest + {Parent(parent)});
        parent := Parent(parent);
      }
      if parent in dirs { NotRoot(t, parent); }
      SkipKeepsInv(t, c, dirs, rest + {parent}, parent, rest);
    }
  }

  /** On equal trees and equal candidates, in any order, the two loops leave equal trees. */
  method LoopsAgree(a: FileSystem, b: FileSystem, stack: seq<Path>, walk: seq<Path>)
    requires a != b && a.State() == b.State() && Valid(a.State())
    requires forall p :: p in stack <==> p in walk
    modifies a, b
    ensures a.State() == b.State()
    ensures Valid(a.State()) && a.files == old(a.files) && a.dirs <= old(a.dirs)
  {
    ghost var t := a.State();
    a.PruneEmptyDirs(stack);
    b.RemoveEmptyParents(walk);
    assert Elements(stack) == Elements(walk);
    PrunedIsValid(t, Elements(stack));
  }
}
