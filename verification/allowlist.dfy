/**
  `_get_sudo_argtypes`: the first class of the target's ancestor sequence
  whose own `__dict__` holds `methname` tagged by `allow_from_sudo` decides
  the argument types; no such class means the method is not allowed.
 */
module Allowlist {
  import opened Wrappers
  import opened Values
  import opened Classes
  import opened Mro

  /** `c.__dict__[name]._esky_sudo_argtypes` exists: `c` itself declares `name` allowed. */
  predicate Tags(h: Hierarchy, c: ClassId, name: string) {
    name in Info(h, c).dict && Info(h, c).dict[name].argtypes.Some?
  }

  /** The argument types `c` itself declares for `name`. */
  function DeclaredArgTypes(h: Hierarchy, c: ClassId, name: string): seq<ArgType>
    requires Tags(h, c, name)
  {
    Info(h, c).dict[name].argtypes.value
  }

  /** Position `i` of `mro` is the first class that declares `name` allowed. */
  ghost predicate FirstTagging(h: Hierarchy, mro: seq<ClassId>, name: string, i: int) {
    && 0 <= i < |mro|
    && Tags(h, mro[i], name)
    && forall j :: 0 <= j < i ==> !Tags(h, mro[j], name)
  }

  /**
    The search loop of `_get_sudo_argtypes` over a given ancestor sequence;
    `FindArgTypesIsFirstTagging` states what it finds.
   */
  function FindArgTypes(h: Hierarchy, mro: seq<ClassId>, name: string): Option<seq<ArgType>> {
    if |mro| == 0 then None
    else if Tags(h, mro[0], name) then Some(DeclaredArgTypes(h, mro[0], name))
    else FindArgTypes(h, mro[1..], name)
  }

  /**
    The lookup fails exactly when no class of `mro` declares `name` allowed,
    and otherwise returns the argument types of the first class that does.
   */
  lemma {:induction false} FindArgTypesIsFirstTagging(h: Hierarchy, mro: seq<ClassId>, name: string)
    ensures FindArgTypes(h, mro, name).None? <==> forall i :: 0 <= i < |mro| ==> !Tags(h, mro[i], name)
    ensures FindArgTypes(h, mro, name).Some? ==>
              exists i :: FirstTagging(h, mro, name, i) && FindArgTypes(h, mro, name).value == DeclaredArgTypes(h, mro[i], name)
  {
    if |mro| > 0 && !Tags(h, mro[0], name) {
      var r := FindArgTypes(h, mro[1..], name);
      FindArgTypesIsFirstTagging(h, mro[1..], name);
      assert forall i :: 0 <= i < |mro[1..]| ==> mro[1..][i] == mro[i + 1];
      if r.Some? {
        var i :| FirstTagging(h, mro[1..], name, i) && r.value == DeclaredArgTypes(h, mro[1..][i], name);
        assert FirstTagging(h, mro, name, i + 1);
      }
    } else if |mro| > 0 {
      assert FirstTagging(h, mro, name, 0);
    }
  }

  /**
    Python's `getattr(obj, name)` over class attributes: the entry of the
    first class in `mro` whose own `__dict__` has `name`, tagged or not.
   */
  function ResolveAttr(h: Hierarchy, mro: seq<ClassId>, name: string): Option<Attr> {
    if |mro| == 0 then None
    else if name in Info(h, mro[0]).dict then Some(Info(h, mro[0]).dict[name])
    else ResolveAttr(h, mro[1..], name)
  }

  /** Attribute lookup fails exactly when no class of `mro` has `name`, and otherwise finds the first entry. */
  lemma {:induction false} ResolveAttrIsFirstEntry(h: Hierarchy, mro: seq<ClassId>, name: string)
    ensures ResolveAttr(h, mro, name).None? <==> forall i :: 0 <= i < |mro| ==> name !in Info(h, mro[i]).dict
    ensures ResolveAttr(h, mro, name).Some? ==>
              exists i :: 0 <= i < |mro| && name in Info(h, mro[i]).dict && ResolveAttr(h, mro, name).value == Info(h, mro[i]).dict[name]
                          && forall j :: 0 <= j < i ==> name !in Info(h, mro[j]).dict
  {
    if |mro| > 0 && name !in Info(h, mro[0]).dict {
      var r := ResolveAttr(h, mro[1..], name);
      ResolveAttrIsFirstEntry(h, mro[1..], name);
      assert forall i :: 0 <= i < |mro[1..]| ==> mro[1..][i] == mro[i + 1];
      if r.Some? {
        var i :| 0 <= i < |mro[1..]| && name in Info(h, mro[1..][i]).dict && r.value == Info(h, mro[1..][i]).dict[name]
                 && forall j :: 0 <= j < i ==> name !in Info(h, mro[1..][j]).dict;
        forall j | 0 <= j < i + 1 ensures name !in Info(h, mro[j]).dict {
          if j > 0 { assert mro[j] == mro[1..][j - 1]; }
        }
      }
    }
  }

  /** `_get_sudo_argtypes(target, name)`. */
  function ArgTypesOf(t: Target, name: string): Option<seq<ArgType>> {
    FindArgTypes(t.h, GetMro(t.h, t.cls), name)
  }

  /** `getattr(target, name)` restricted to class attributes. */
  function ResolveOn(t: Target, name: string): Option<Attr> {
    ResolveAttr(t.h, GetMro(t.h, t.cls), name)
  }

  /** A method the lookup allows is always found by `getattr`, so forwarding it never fails there. */
  lemma AllowedMethodResolves(t: Target, name: string)
    requires ArgTypesOf(t, name).Some?
    ensures ResolveOn(t, name).Some?
  {
    var mro := GetMro(t.h, t.cls);
    FindArgTypesIsFirstTagging(t.h, mro, name);
    ResolveAttrIsFirstEntry(t.h, mro, name);
    var i :| FirstTagging(t.h, mro, name, i) && ArgTypesOf(t, name).value == DeclaredArgTypes(t.h, mro[i], name);
    assert name in Info(t.h, mro[i]).dict;
  }

  /**
    For an old-style class, a method is allowed exactly when `cls` or one of
    its ancestors through `__bases__` declares it: a declaration is
    inherited and nothing else grants it.
   */
  lemma OldStyleAllowedIffDeclaredByAncestor(t: Target, name: string)
    requires Info(t.h, t.cls).mro.None?
    ensures ArgTypesOf(t, name).Some? <==> exists c :: Reaches(t.h, t.cls, c) && Tags(t.h, c, name)
  {
    var mro := GetMro(t.h, t.cls);
    assert mro == OldStyleMro(t.h, t.cls);
    FindArgTypesIsFirstTagging(t.h, mro, name);
    if ArgTypesOf(t, name).Some? {
      var i :| FirstTagging(t.h, mro, name, i) && ArgTypesOf(t, name).value == DeclaredArgTypes(t.h, mro[i], name);
      OldStyleMroIsAncestors(t.h, t.cls, mro[i]);
    }
    if exists c :: Reaches(t.h, t.cls, c) && Tags(t.h, c, name) {
      var c :| Reaches(t.h, t.cls, c) && Tags(t.h, c, name);
      OldStyleMroIsAncestors(t.h, t.cls, c);
      var i :| 0 <= i < |mro| && mro[i] == c;
    }
  }

  /** A declaration on an old-style target's own class wins over any inherited one. */
  lemma OwnDeclarationWins(t: Target, name: string)
    requires Info(t.h, t.cls).mro.None? && Tags(t.h, t.cls, name)
    ensures ArgTypesOf(t, name) == Some(DeclaredArgTypes(t.h, t.cls, name))
  {
    var mro := GetMro(t.h, t.cls);
    assert mro[0] == t.cls;
  }

  lemma FirstTaggingUnique(h: Hierarchy, mro: seq<ClassId>, name: string, i: int, k: int)
    requires FirstTagging(h, mro, name, i) && FirstTagging(h, mro, name, k)
    ensures i == k
  {
  }

  /**
    When `getattr` lands on a tagged entry, that entry's argument types are
    the ones the allowlist lookup returns.
   */
  lemma ResolvedDeclarationIsTheAllowlistEntry(h: Hierarchy, mro: seq<ClassId>, name: string)
    requires ResolveAttr(h, mro, name).Some? && ResolveAttr(h, mro, name).value.argtypes.Some?
    ensures FindArgTypes(h, mro, name) == ResolveAttr(h, mro, name).value.argtypes
  {
    ResolveAttrIsFirstEntry(h, mro, name);
    FindArgTypesIsFirstTagging(h, mro, name);
    var a := ResolveAttr(h, mro, name).value;
    var i :| 0 <= i < |mro| && name in Info(h, mro[i]).dict && a == Info(h, mro[i]).dict[name]
             && forall j :: 0 <= j < i ==> name !in Info(h, mro[j]).dict;
    assert FirstTagging(h, mro, name, i);
    var r := FindArgTypes(h, mro, name);
    var k :| FirstTagging(h, mro, name, k) && r.value == DeclaredArgTypes(h, mro[k], name);
    FirstTaggingUnique(h, mro, name, i, k);
  }
}
