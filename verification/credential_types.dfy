/** Credential types and their `extends` relation: the ancestor list that
    `getParentTypes` builds by looping over an array it keeps extending. */
module CredentialTypes {
  import opened Common

  type TypeName = string

  /** Known credential types; the value is the optional `extends` list. */
  type Registry = map<TypeName, Option<seq<TypeName>>>

  function Parents(known: Registry, t: TypeName): seq<TypeName> {
    if t in known && known[t].Some? then known[t].value else []
  }

  /** `t` is a known type that lists `p` in its `extends`. */
  predicate Extends(known: Registry, t: TypeName, p: TypeName) {
    t in known && match known[t] case Some(listed) => p in listed case None => false
  }

  /** A path of at least one `extends` step, from descendant to ancestor. */
  ghost predicate IsPath(known: Registry, p: seq<TypeName>) {
    |p| >= 2 && forall i | 0 <= i < |p| - 1 :: Extends(known, p[i], p[i + 1])
  }

  ghost predicate PathBetween(known: Registry, p: seq<TypeName>, t: TypeName, a: TypeName) {
    IsPath(known, p) && p[0] == t && p[|p| - 1] == a
  }

  /** `a` is a strict ancestor of `t`. */
  ghost predicate IsAncestor(known: Registry, a: TypeName, t: TypeName) {
    exists p :: PathBetween(known, p, t, a)
  }

  ghost predicate Acyclic(known: Registry) {
    forall t :: !IsAncestor(known, t, t)
  }

  lemma ParentIsAncestor(known: Registry, p: TypeName, t: TypeName)
    requires p in Parents(known, t)
    ensures IsAncestor(known, p, t)
  {
    assert PathBetween(known, [t, p], t, p);
  }

  lemma AncestorTransitive(known: Registry, a: TypeName, b: TypeName, t: TypeName)
    requires IsAncestor(known, a, b) && IsAncestor(known, b, t)
    ensures IsAncestor(known, a, t)
  {
    var p :| PathBetween(known, p, t, b);
    var q :| PathBetween(known, q, b, a);
    assert PathBetween(known, p + q[1..], t, a);
  }

  /** An ancestor is a parent, or an ancestor of a parent. */
  lemma AncestorCases(known: Registry, a: TypeName, t: TypeName)
    requires IsAncestor(known, a, t)
    ensures exists p :: p in Parents(known, t) && (a == p || IsAncestor(known, a, p))
  {
    var q :| PathBetween(known, q, t, a);
    assert Extends(known, q[0], q[1]);
    if |q| > 2 {
      forall i | 0 <= i < |q[1..]| - 1
        ensures Extends(known, q[1..][i], q[1..][i + 1])
      {
        assert Extends(known, q[i + 1], q[i + 2]);
      }
      assert PathBetween(known, q[1..], q[1], a);
    }
  }

  function Mentioned(known: Registry): set<TypeName> {
    set t, p | t in known && p in Parents(known, t) :: p
  }

  ghost function Ancestors(known: Registry, t: TypeName): set<TypeName> {
    set a | a in Mentioned(known) && IsAncestor(known, a, t)
  }

  ghost function Rank(known: Registry, t: TypeName): nat {
    |Ancestors(known, t)|
  }

  lemma ProperSubsetSize<T>(a: set<T>, b: set<T>)
    requires a < b
    ensures |a| < |b|
  {
    assert b == a + (b - a);
  }

  lemma AncestorMentioned(known: Registry, a: TypeName, t: TypeName)
    requires IsAncestor(known, a, t)
    ensures a in Mentioned(known)
  {
    var p :| PathBetween(known, p, t, a);
    assert Extends(known, p[|p| - 2], p[|p| - 2 + 1]);
    assert a in Parents(known, p[|p| - 2]);
  }

  /** On an acyclic relation a strict ancestor has strictly fewer ancestors. */
  lemma AncestorHasSmallerRank(known: Registry, a: TypeName, t: TypeName)
    requires Acyclic(known) && IsAncestor(known, a, t)
    ensures Rank(known, a) < Rank(known, t)
  {
    forall b | b in Ancestors(known, a)
      ensures b in Ancestors(known, t)
    {
      AncestorTransitive(known, b, a, t);
    }
    AncestorMentioned(known, a, t);
    assert a in Ancestors(known, t) && a !in Ancestors(known, a);
    ProperSubsetSize(Ancestors(known, a), Ancestors(known, t));
  }

  ghost predicate Below(known: Registry, ts: seq<TypeName>, bound: nat) {
    forall x :: x in ts ==> Rank(known, x) < bound
  }

  lemma ParentsBelow(known: Registry, t: TypeName)
    requires Acyclic(known)
    ensures Below(known, Parents(known, t), Rank(known, t))
  {
    forall x | x in Parents(known, t)
      ensures Rank(known, x) < Rank(known, t)
    {
      ParentIsAncestor(known, x, t);
      AncestorHasSmallerRank(known, x, t);
    }
  }

  /** What `getParentTypes` returns: the parents, then the parent lists of all of
      those, and so on, one level of the growing array after the other. */
  ghost function ParentTypes(known: Registry, t: TypeName): (r: seq<TypeName>)
    requires Acyclic(known)
    ensures Below(known, r, Rank(known, t))
    decreases Rank(known, t), 2
  {
    ParentsBelow(known, t);
    Levels(known, Parents(known, t), Rank(known, t))
  }

  ghost function Levels(known: Registry, level: seq<TypeName>, bound: nat): (r: seq<TypeName>)
    requires Acyclic(known) && Below(known, level, bound)
    ensures Below(known, r, bound)
    decreases bound, 1
  {
    if level == [] then [] else
      assert Rank(known, level[0]) < bound;
      level + Levels(known, NextLevel(known, level, bound), bound - 1)
  }

  ghost function NextLevel(known: Registry, level: seq<TypeName>, bound: nat): (r: seq<TypeName>)
    requires Acyclic(known) && Below(known, level, bound) && bound > 0
    ensures Below(known, r, bound - 1)
    decreases bound, 0, |level|
  {
    if level == [] then [] else
      ParentTypes(known, level[0]) + NextLevel(known, level[1..], bound)
  }

  lemma LevelsUnfold(known: Registry, level: seq<TypeName>, bound: nat)
    requires Acyclic(known) && Below(known, level, bound) && level != []
    ensures bound > 0 && Below(known, NextLevel(known, level, bound), bound - 1)
    ensures Levels(known, level, bound) == level + Levels(known, NextLevel(known, level, bound), bound - 1)
  {
    assert level[0] in level;
  }

  lemma {:induction false} NextLevelSingle(known: Registry, t: TypeName, bound: nat)
    requires Acyclic(known) && Below(known, [t], bound) && bound > 0
    ensures NextLevel(known, [t], bound) == ParentTypes(known, t)
  {}

  /** The rest of the result when `current` is what is left of the level being visited
      and `next` is what its visited part has appended so far. */
  ghost function Finish(known: Registry, current: seq<TypeName>, next: seq<TypeName>, bound: nat): seq<TypeName>
    requires Acyclic(known) && bound > 0 && Below(known, current, bound) && Below(known, next, bound - 1)
  {
    current + Levels(known, next + NextLevel(known, current, bound), bound - 1)
  }

  lemma {:induction false} FinishStart(known: Registry, level: seq<TypeName>, bound: nat)
    requires Acyclic(known) && Below(known, level, bound) && level != []
    ensures bound > 0 && Levels(known, level, bound) == Finish(known, level, [], bound)
  {
    LevelsUnfold(known, level, bound);
    assert [] + NextLevel(known, level, bound) == NextLevel(known, level, bound);
  }

  lemma FinishShift(known: Registry, next: seq<TypeName>, bound: nat)
    requires Acyclic(known) && bound > 0 && Below(known, next, bound - 1) && next != []
    ensures bound > 1 && Finish(known, [], next, bound) == Finish(known, next, [], bound - 1)
  {
    FinishStart(known, next, bound - 1);
    assert next + NextLevel(known, [], bound) == next;
  }

  lemma {:induction false} FinishVisit(known: Registry, current: seq<TypeName>, next: seq<TypeName>, bound: nat)
    requires Acyclic(known) && bound > 0 && Below(known, current, bound) && Below(known, next, bound - 1)
    requires current != []
    ensures Below(known, ParentTypes(known, current[0]), bound - 1)
    ensures Finish(known, current, next, bound)
         == [current[0]] + Finish(known, current[1..], next + ParentTypes(known, current[0]), bound)
  {
    assert current[0] in current;
    assert next + NextLevel(known, current, bound)
        == (next + ParentTypes(known, current[0])) + NextLevel(known, current[1..], bound);
    assert current == [current[0]] + current[1..];
  }

  lemma FinishEnd(known: Registry, bound: nat)
    requires Acyclic(known) && bound > 0
    ensures Finish(known, [], [], bound) == []
  {
    assert [] + NextLevel(known, [], bound) == [];
  }

  lemma {:induction false} NoParentTypes(known: Registry, t: TypeName)
    requires Acyclic(known) && Parents(known, t) == []
    ensures ParentTypes(known, t) == []
  {}

  /** Where the loop stands: the array from `i` on is `current + next`, and finishing
      from there gives the whole result. */
  ghost predicate Standing(known: Registry, t: TypeName, list: seq<TypeName>, i: nat,
                           current: seq<TypeName>, next: seq<TypeName>, bound: nat)
    requires Acyclic(known)
  {
    && bound > 0 && Below(known, current, bound) && Below(known, next, bound - 1)
    && i <= |list| && list[i..] == current + next
    && ParentTypes(known, t) == list[..i] + Finish(known, current, next, bound)
  }

  lemma {:induction false} VisitOne(known: Registry, t: TypeName, list: seq<TypeName>, i: nat,
                                    current: seq<TypeName>, next: seq<TypeName>, bound: nat)
    requires Acyclic(known) && Standing(known, t, list, i, current, next, bound) && current != []
    ensures i < |list| && list[i] == current[0] && i < |ParentTypes(known, t)|
    ensures list[i] in ParentTypes(known, t)
    ensures Standing(known, t, list + ParentTypes(known, current[0]), i + 1,
                     current[1..], next + ParentTypes(known, current[0]), bound)
  {
    hide Levels, NextLevel, Rank, ParentTypes, Finish, Acyclic;
    var more := ParentTypes(known, current[0]);
    FinishVisit(known, current, next, bound);
    assert list[i] == list[i..][0] == current[0];
    assert (list + more)[i + 1..] == list[i..][1..] + more == current[1..] + (next + more);
    assert (list + more)[..i + 1] == list[..i] + [list[i]];
    assert ParentTypes(known, t)[i] == list[i];
  }

  /** The loop that pushes onto the array it iterates terminates, with the level list. */
  method GetParentTypes(known: Registry, typeName: TypeName) returns (result: seq<TypeName>)
    requires Acyclic(known)
    ensures result == ParentTypes(known, typeName)
    decreases Rank(known, typeName)
  {
    hide Levels, NextLevel, Finish, Rank, Acyclic;
    var extendsArr := Parents(known, typeName);
    if |extendsArr| == 0 {
      NoParentTypes(known, typeName);
      return [];
    }
    ParentsBelow(known, typeName);
    FinishStart(known, extendsArr, Rank(known, typeName));
    ghost var bound, current, next := Rank(known, typeName), extendsArr, [];
    result := extendsArr;
    var i := 0;
    while i < |result|
      invariant 0 <= i && Standing(known, typeName, result, i, current, next, bound)
      decreases |ParentTypes(known, typeName)| - i
    {
      if current == [] {
        FinishShift(known, next, bound);
        bound, current, next := bound - 1, next, [];
      }
      VisitOne(known, typeName, result, i, current, next, bound);
      var more := GetParentTypes(known, result[i]);
      current, next := current[1..], next + more;
      result := result + more;
      i := i + 1;
    }
    FinishEnd(known, bound);
    assert result[..i] == result;
  }

  ghost predicate ReachedFrom(known: Registry, level: seq<TypeName>, a: TypeName) {
    exists x :: x in level && (a == x || IsAncestor(known, a, x))
  }

  /** The result names exactly the strict ancestors. */
  lemma {:induction false} MembersAreTheAncestors(known: Registry, t: TypeName, a: TypeName)
    requires Acyclic(known)
    ensures a in ParentTypes(known, t) <==> IsAncestor(known, a, t)
    decreases Rank(known, t), 2
  {
    ParentsBelow(known, t);
    LevelsReach(known, Parents(known, t), Rank(known, t), a);
    if IsAncestor(known, a, t) {
      AncestorCases(known, a, t);
    }
    if ReachedFrom(known, Parents(known, t), a) {
      var x :| x in Parents(known, t) && (a == x || IsAncestor(known, a, x));
      ParentIsAncestor(known, x, t);
      if a != x { AncestorTransitive(known, a, x, t); }
    }
  }

  lemma {:induction false} LevelsReach(known: Registry, level: seq<TypeName>, bound: nat, a: TypeName)
    requires Acyclic(known) && Below(known, level, bound)
    ensures a in Levels(known, level, bound) <==> ReachedFrom(known, level, a)
    decreases bound, 1
  {
    if level != [] {
      assert level[0] in level;
      var next := NextLevel(known, level, bound);
      LevelsReach(known, next, bound - 1, a);
      NextLevelReach(known, level, bound, a);
      if ReachedFrom(known, next, a) {
        var y :| y in next && (a == y || IsAncestor(known, a, y));
        NextLevelReach(known, level, bound, y);
        var x :| x in level && IsAncestor(known, y, x);
        if a != y { AncestorTransitive(known, a, y, x); }
      }
    }
  }

  lemma {:induction false} NextLevelReach(known: Registry, level: seq<TypeName>, bound: nat, a: TypeName)
    requires Acyclic(known) && Below(known, level, bound) && bound > 0
    ensures a in NextLevel(known, level, bound) <==> exists x :: x in level && IsAncestor(known, a, x)
    decreases bound, 0, |level|
  {
    if level != [] {
      assert level[0] in level;
      MembersAreTheAncestors(known, level[0], a);
      NextLevelReach(known, level[1..], bound, a);
      assert level == [level[0]] + level[1..];
    }
  }

  lemma {:induction false} DirectParentsFirst(known: Registry, t: TypeName)
    requires Acyclic(known)
    ensures Parents(known, t) <= ParentTypes(known, t)
    ensures t in known && known[t].Some? ==> known[t].value <= ParentTypes(known, t)
  {
    ParentsBelow(known, t);
    if Parents(known, t) != [] {
      assert Parents(known, t)[0] in Parents(known, t);
    }
  }

  // ---- Single inheritance ------------------------------------------------

  predicate SingleParent(known: Registry, t: TypeName) {
    |Parents(known, t)| <= 1
  }

  /** `t` and all its ancestors have at most one parent. */
  ghost predicate SingleLine(known: Registry, t: TypeName) {
    SingleParent(known, t) && forall a :: IsAncestor(known, a, t) ==> SingleParent(known, a)
  }

  /** The ancestors of `t` along first parents, nearest first. */
  ghost function Chain(known: Registry, t: TypeName): seq<TypeName>
    requires Acyclic(known)
    decreases Rank(known, t)
  {
    if Parents(known, t) == [] then [] else
      var p := Parents(known, t)[0];
      ParentIsAncestor(known, p, t);
      AncestorHasSmallerRank(known, p, t);
      [p] + Chain(known, p)
  }

  /** The first name of `ts` that lies in `s`. */
  function FirstIn(ts: seq<TypeName>, s: set<TypeName>): (r: Option<TypeName>)
    ensures r.Some? ==> r.value in ts && r.value in s
    ensures r.None? ==> forall x :: x in ts ==> x !in s
    ensures r.Some? ==> exists i :: 0 <= i < |ts| && ts[i] == r.value && forall j | 0 <= j < i :: ts[j] !in s
  {
    if ts == [] then None
    else if ts[0] in s then Some(ts[0])
    else FirstIn(ts[1..], s)
  }

  lemma {:induction false} FirstInAppend(a: seq<TypeName>, b: seq<TypeName>, s: set<TypeName>)
    ensures FirstIn(a + b, s) == if FirstIn(a, s).Some? then FirstIn(a, s) else FirstIn(b, s)
  {
    if a == [] {
      assert a + b == b;
    } else {
      FirstInAppend(a[1..], b, s);
      assert (a + b)[1..] == a[1..] + b;
    }
  }

  lemma SingleLineParent(known: Registry, t: TypeName, p: TypeName)
    requires SingleLine(known, t) && p in Parents(known, t)
    ensures SingleLine(known, p)
  {
    ParentIsAncestor(known, p, t);
    forall a | IsAncestor(known, a, p)
      ensures SingleParent(known, a)
    {
      AncestorTransitive(known, a, p, t);
    }
  }

  /** On a single line, searching the returned list finds the same name as searching
      the ancestors nearest first, whatever set is searched for. */
  lemma {:induction false} SearchesNearestFirst(known: Registry, t: TypeName, s: set<TypeName>)
    requires Acyclic(known) && SingleLine(known, t)
    ensures FirstIn(ParentTypes(known, t), s) == FirstIn(Chain(known, t), s)
    decreases Rank(known, t)
  {
    if Parents(known, t) != [] {
      var p := Parents(known, t)[0];
      assert Parents(known, t) == [p];
      ParentIsAncestor(known, p, t);
      AncestorHasSmallerRank(known, p, t);
      SingleLineParent(known, t, p);
      SearchesNearestFirst(known, p, s);
      SearchOnlyParent(known, t, p, s);
      FirstInAppend([p], ParentTypes(known, p), s);
      FirstInAppend([p], Chain(known, p), s);
    }
  }

  /** With one parent, searching the list is searching the parent and its list. */
  lemma {:induction false} SearchOnlyParent(known: Registry, t: TypeName, p: TypeName, s: set<TypeName>)
    requires Acyclic(known) && Parents(known, t) == [p]
    ensures FirstIn(ParentTypes(known, t), s) == FirstIn([p] + ParentTypes(known, p), s)
  {
    hide FirstIn, Levels, ParentTypes, IsAncestor, Acyclic, Rank;
    OnlyParentList(known, t, p);
    var rest := Levels(known, ParentTypes(known, p), Rank(known, t) - 1);
    FirstInAppend([p], rest, s);
    FirstInAppend([p], ParentTypes(known, p), s);
    DeeperLevelsAddNothing(known, p, Rank(known, t) - 1, s);
  }

  lemma {:induction false} OnlyParentList(known: Registry, t: TypeName, p: TypeName)
    requires Acyclic(known) && Parents(known, t) == [p]
    ensures Rank(known, t) > 0 && Below(known, ParentTypes(known, p), Rank(known, t) - 1)
    ensures ParentTypes(known, t) == [p] + Levels(known, ParentTypes(known, p), Rank(known, t) - 1)
  {
    hide IsAncestor, Acyclic, Rank, Levels, NextLevel;
    ParentsBelow(known, t);
    ParentIsAncestor(known, p, t);
    AncestorHasSmallerRank(known, p, t);
    NextLevelSingle(known, p, Rank(known, t));
    LevelsUnfold(known, [p], Rank(known, t));
  }

  /** Searching `ParentTypes(p)` followed by all deeper levels is searching `ParentTypes(p)`. */
  lemma {:induction false} DeeperLevelsAddNothing(known: Registry, p: TypeName, bound: nat, s: set<TypeName>)
    requires Acyclic(known) && Below(known, ParentTypes(known, p), bound)
    ensures FirstIn(Levels(known, ParentTypes(known, p), bound), s) == FirstIn(ParentTypes(known, p), s)
  {
    var next := ParentTypes(known, p);
    if next != [] {
      LevelsUnfold(known, next, bound);
      var deeper := Levels(known, NextLevel(known, next, bound), bound - 1);
      FirstInAppend(next, deeper, s);
      forall x | x in deeper
        ensures x in next
      {
        LevelsReach(known, next, bound, x);
        var y :| y in next && (x == y || IsAncestor(known, x, y));
        MembersAreTheAncestors(known, p, y);
        if x != y { AncestorTransitive(known, x, y, p); }
        MembersAreTheAncestors(known, p, x);
      }
    }
  }

  /** First occurrences appear nearest first: before the first occurrence of a nearer
      ancestor the list holds no farther one. */
  lemma {:induction false} NearestFirst(known: Registry, t: TypeName, i: nat, j: nat)
    requires Acyclic(known) && SingleLine(known, t)
    requires i < j < |Chain(known, t)|
    ensures FirstIn(ParentTypes(known, t), {Chain(known, t)[i], Chain(known, t)[j]}) == Some(Chain(known, t)[i])
  {
    hide Chain, ParentTypes, FirstIn, SingleLine, Acyclic, IsAncestor;
    var c := Chain(known, t);
    SearchesNearestFirst(known, t, {c[i], c[j]});
    ChainDistinct(known, t);
    FirstOfDistinct(c, i, j);
  }

  lemma {:induction false} FirstOfDistinct(c: seq<TypeName>, i: nat, j: nat)
    requires i < j < |c|
    requires forall m, n :: 0 <= m < n < |c| ==> c[m] != c[n]
    ensures FirstIn(c, {c[i], c[j]}) == Some(c[i])
  {
    var s := {c[i], c[j]};
    FirstInAppend(c[..i], c[i..], s);
    assert c == c[..i] + c[i..];
    assert c[i..][0] == c[i];
    forall x | x in c[..i]
      ensures x !in s
    {}
  }

  lemma {:induction false} ChainDistinct(known: Registry, t: TypeName)
    requires Acyclic(known)
    ensures forall x :: x in Chain(known, t) ==> IsAncestor(known, x, t)
    ensures forall i, j :: 0 <= i < j < |Chain(known, t)| ==> Chain(known, t)[i] != Chain(known, t)[j]
    decreases Rank(known, t)
  {
    if Parents(known, t) != [] {
      var p := Parents(known, t)[0];
      ParentIsAncestor(known, p, t);
      AncestorHasSmallerRank(known, p, t);
      ChainDistinct(known, p);
      forall x | x in Chain(known, p)
        ensures IsAncestor(known, x, t)
      {
        AncestorTransitive(known, x, p, t);
      }
      assert !IsAncestor(known, p, p);
      assert Chain(known, t) == [p] + Chain(known, p);
    }
  }
}
