/**
  The ancestor sequence the allowlist lookup searches: the interpreter's
  `__mro__` for new-style classes, and for old-style classes a depth-first
  walk of `__bases__` that shares one `seen` set across the whole walk.
 */
module Mro {
  import opened Wrappers
  import opened Classes

  /** No class occurs twice in `s`. */
  ghost predicate NoDuplicates(s: seq<ClassId>) {
    forall i, j :: 0 <= i < j < |s| ==> s[i] != s[j]
  }

  /** The classes occurring in `s`. */
  function Elems(s: seq<ClassId>): set<ClassId> {
    set x | x in s
  }

  /**
    `_get_oldstyle_mro(cls, seen)`: yields `cls`, marks it seen, then walks
    each base that is not yet seen. The second component is the `seen` set
    after the walk. Its other properties are proved by the lemmas below.
   */
  function Walk(h: Hierarchy, cls: ClassId, seen: set<ClassId>): (r: (seq<ClassId>, set<ClassId>))
    requires cls !in seen
    ensures |r.0| > 0 && r.0[0] == cls
    ensures seen < r.1
    decreases h.Keys - seen, 0, 0
  {
    if cls in h then
      var (rest, after) := WalkBases(h, h[cls].bases, seen + {cls});
      ([cls] + rest, after)
    else
      ([cls], seen + {cls})
  }

  /** The `for base in cls.__bases__` loop of the walk, over the bases not yet visited. */
  function WalkBases(h: Hierarchy, bases: seq<ClassId>, seen: set<ClassId>): (r: (seq<ClassId>, set<ClassId>))
    ensures seen <= r.1
    decreases h.Keys - seen, 1, |bases|
  {
    if |bases| == 0 then
      ([], seen)
    else if bases[0] in seen then
      WalkBases(h, bases[1..], seen)
    else
      var (first, mid) := Walk(h, bases[0], seen);
      var (others, after) := WalkBases(h, bases[1..], mid);
      (first + others, after)
  }

  /**
    The walk never yields a class twice, never yields one already seen,
    and marks seen exactly what it yields.
   */
  lemma {:induction false} WalkVisitsEachOnce(h: Hierarchy, cls: ClassId, seen: set<ClassId>)
    requires cls !in seen
    ensures NoDuplicates(Walk(h, cls, seen).0)
    ensures forall i :: 0 <= i < |Walk(h, cls, seen).0| ==> Walk(h, cls, seen).0[i] !in seen
    ensures Walk(h, cls, seen).1 == seen + Elems(Walk(h, cls, seen).0)
    decreases h.Keys - seen, 0, 0
  {
    if cls in h {
      WalkBasesVisitsEachOnce(h, h[cls].bases, seen + {cls});
    }
  }

  lemma {:induction false} WalkBasesVisitsEachOnce(h: Hierarchy, bases: seq<ClassId>, seen: set<ClassId>)
    ensures NoDuplicates(WalkBases(h, bases, seen).0)
    ensures forall i :: 0 <= i < |WalkBases(h, bases, seen).0| ==> WalkBases(h, bases, seen).0[i] !in seen
    ensures WalkBases(h, bases, seen).1 == seen + Elems(WalkBases(h, bases, seen).0)
    decreases h.Keys - seen, 1, |bases|
  {
    if |bases| == 0 {
    } else if bases[0] in seen {
      WalkBasesVisitsEachOnce(h, bases[1..], seen);
    } else {
      var (first, mid) := Walk(h, bases[0], seen);
      WalkVisitsEachOnce(h, bases[0], seen);
      WalkBasesVisitsEachOnce(h, bases[1..], mid);
    }
  }

  /** `_get_oldstyle_mro(cls, set())` as a finite sequence: `cls` first, no class twice. */
  function OldStyleMro(h: Hierarchy, cls: ClassId): (r: seq<ClassId>)
    ensures |r| > 0 && r[0] == cls
    ensures NoDuplicates(r)
  {
    WalkVisitsEachOnce(h, cls, {});
    Walk(h, cls, {}).0
  }

  /** `_get_mro(obj)` for an instance of `cls`: `__mro__` when the class has one. */
  function GetMro(h: Hierarchy, cls: ClassId): seq<ClassId> {
    match Info(h, cls).mro
    case Some(m) => m
    case None => OldStyleMro(h, cls)
  }

  /** `p` is a chain of classes in which each one is a direct base of the one before it. */
  ghost predicate IsBaseChain(h: Hierarchy, p: seq<ClassId>) {
    |p| > 0 && forall i :: 0 <= i < |p| - 1 ==> p[i + 1] in Info(h, p[i]).bases
  }

  /** `b` is `a` or an ancestor of `a` through `__bases__`. */
  ghost predicate Reaches(h: Hierarchy, a: ClassId, b: ClassId) {
    exists p :: IsBaseChain(h, p) && p[0] == a && p[|p| - 1] == b
  }

  /** Every base of every class in `classes` is in `s`. */
  ghost predicate BasesIn(h: Hierarchy, classes: set<ClassId>, s: set<ClassId>) {
    forall c, i :: c in classes && 0 <= i < |Info(h, c).bases| ==> Info(h, c).bases[i] in s
  }

  lemma ReachesSelf(h: Hierarchy, a: ClassId)
    ensures Reaches(h, a, a)
  {
    assert IsBaseChain(h, [a]);
  }

  lemma ReachesThroughBase(h: Hierarchy, a: ClassId, b: ClassId, c: ClassId)
    requires b in Info(h, a).bases && Reaches(h, b, c)
    ensures Reaches(h, a, c)
  {
    var p :| IsBaseChain(h, p) && p[0] == b && p[|p| - 1] == c;
    var q := [a] + p;
    assert forall i :: 0 <= i < |q| - 1 ==> q[i + 1] in Info(h, q[i]).bases by {
      forall i | 0 <= i < |q| - 1 ensures q[i + 1] in Info(h, q[i]).bases {
        if i > 0 {
          assert q[i] == p[i - 1] && q[i + 1] == p[i];
        }
      }
    }
    assert IsBaseChain(h, q);
  }

  /** Soundness of the walk: it yields only `cls` and ancestors of `cls`. */
  lemma {:induction false} WalkYieldsAncestors(h: Hierarchy, cls: ClassId, seen: set<ClassId>)
    requires cls !in seen
    ensures forall x :: x in Walk(h, cls, seen).0 ==> Reaches(h, cls, x)
    decreases h.Keys - seen, 0, 0
  {
    ReachesSelf(h, cls);
    if cls in h {
      var bases := h[cls].bases;
      WalkBasesYieldAncestors(h, bases, seen + {cls});
      assert Walk(h, cls, seen).0 == [cls] + WalkBases(h, bases, seen + {cls}).0;
      forall x | x in Walk(h, cls, seen).0 ensures Reaches(h, cls, x) {
        if x != cls {
          var i :| 0 <= i < |bases| && Reaches(h, bases[i], x);
          ReachesThroughBase(h, cls, bases[i], x);
        }
      }
    }
  }

  lemma {:induction false} WalkBasesYieldAncestors(h: Hierarchy, bases: seq<ClassId>, seen: set<ClassId>)
    ensures forall x :: x in WalkBases(h, bases, seen).0 ==> exists i :: 0 <= i < |bases| && Reaches(h, bases[i], x)
    decreases h.Keys - seen, 1, |bases|
  {
    if |bases| == 0 {
    } else if bases[0] in seen {
      WalkBasesYieldAncestors(h, bases[1..], seen);
      assert WalkBases(h, bases, seen).0 == WalkBases(h, bases[1..], seen).0;
      forall x | x in WalkBases(h, bases, seen).0
        ensures exists i :: 0 <= i < |bases| && Reaches(h, bases[i], x)
      {
        var i :| 0 <= i < |bases[1..]| && Reaches(h, bases[1..][i], x);
        assert Reaches(h, bases[i + 1], x);
      }
    } else {
      var (first, mid) := Walk(h, bases[0], seen);
      WalkYieldsAncestors(h, bases[0], seen);
      WalkBasesYieldAncestors(h, bases[1..], mid);
      var (others, after) := WalkBases(h, bases[1..], mid);
      assert WalkBases(h, bases, seen).0 == first + others;
      forall x | x in WalkBases(h, bases, seen).0
        ensures exists i :: 0 <= i < |bases| && Reaches(h, bases[i], x)
      {
        if x in first {
          assert Reaches(h, bases[0], x);
        } else {
          var i :| 0 <= i < |bases[1..]| && Reaches(h, bases[1..][i], x);
          assert Reaches(h, bases[i + 1], x);
        }
      }
    }
  }

  /** Every class the walk newly marks seen has all its bases marked seen too. */
  lemma {:induction false} WalkCloses(h: Hierarchy, cls: ClassId, seen: set<ClassId>)
    requires cls !in seen
    ensures BasesIn(h, Walk(h, cls, seen).1 - seen, Walk(h, cls, seen).1)
    decreases h.Keys - seen, 0, 0
  {
    if cls in h {
      WalkBasesCloses(h, h[cls].bases, seen + {cls});
    }
  }

  lemma {:induction false} WalkBasesCloses(h: Hierarchy, bases: seq<ClassId>, seen: set<ClassId>)
    ensures BasesIn(h, WalkBases(h, bases, seen).1 - seen, WalkBases(h, bases, seen).1)
    ensures forall i :: 0 <= i < |bases| ==> bases[i] in WalkBases(h, bases, seen).1
    decreases h.Keys - seen, 1, |bases|
  {
    if |bases| == 0 {
    } else if bases[0] in seen {
      WalkBasesCloses(h, bases[1..], seen);
      assert forall i :: 1 <= i < |bases| ==> bases[i] == bases[1..][i - 1];
    } else {
      var (first, mid) := Walk(h, bases[0], seen);
      WalkCloses(h, bases[0], seen);
      WalkBasesCloses(h, bases[1..], mid);
      assert forall i :: 1 <= i < |bases| ==> bases[i] == bases[1..][i - 1];
    }
  }

  lemma {:induction false} ChainStaysIn(h: Hierarchy, p: seq<ClassId>, s: set<ClassId>)
    requires IsBaseChain(h, p) && p[0] in s && BasesIn(h, s, s)
    ensures p[|p| - 1] in s
    decreases |p|
  {
    if |p| > 1 {
      var q := p[..|p| - 1];
      assert IsBaseChain(h, q);
      ChainStaysIn(h, q, s);
      var last := p[|p| - 2];
      assert q[|q| - 1] == last;
      assert p[|p| - 1] in Info(h, last).bases;
      var j :| 0 <= j < |Info(h, last).bases| && Info(h, last).bases[j] == p[|p| - 1];
    }
  }

  /**
    The old-style walk from an empty `seen` set yields exactly `cls` and
    its ancestors through `__bases__`, each once.
   */
  lemma OldStyleMroIsAncestors(h: Hierarchy, cls: ClassId, x: ClassId)
    ensures x in OldStyleMro(h, cls) <==> Reaches(h, cls, x)
  {
    var (out, s) := Walk(h, cls, {});
    WalkYieldsAncestors(h, cls, {});
    WalkVisitsEachOnce(h, cls, {});
    if Reaches(h, cls, x) {
      WalkCloses(h, cls, {});
      assert s - {} == s;
      var p :| IsBaseChain(h, p) && p[0] == cls && p[|p| - 1] == x;
      ChainStaysIn(h, p, s);
    }
  }
}
