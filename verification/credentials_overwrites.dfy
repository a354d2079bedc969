/** Credential overwrites: the in-place resolver that merges inherited overwrite values
    into the map it iterates, and the lookup and application of the merged values. */
module Overwrites {
  import opened Common
  import opened CredentialTypes

  type FieldName = string
  datatype Value = Null | Text(text: string) | Number(number: int) | Flag(flag: bool)
  type Fields = map<FieldName, Value>
  type Data = map<TypeName, Fields>

  function Lookup(data: Data, t: TypeName): Option<Fields> {
    if t in data then Some(data[t]) else None
  }

  function Field(fields: Option<Fields>, f: FieldName): Option<Value> {
    if fields.Some? && f in fields.value then Some(fields.value[f]) else None
  }

  /** `Object.assign(target, source)`; an undefined source assigns nothing. */
  function Assign(target: Fields, source: Option<Fields>): Fields {
    if source.None? then target else target + source.value
  }

  // ---- The resolver ------------------------------------------------------

  datatype Resolution = Resolution(fields: Option<Fields>, resolved: seq<TypeName>)
  datatype Merged = Merged(fields: Fields, resolved: seq<TypeName>)

  /** `getOverwrites` with the overwrite data and the list of resolved types as values. */
  ghost function Resolve(known: Registry, data: Data, resolved: seq<TypeName>, t: TypeName): Resolution
    requires Acyclic(known)
    decreases Rank(known, t), 1
  {
    if t in resolved then Resolution(Lookup(data, t), resolved)
    else if t !in known then Resolution(None, resolved)
    else if known[t].None? then Resolution(Lookup(data, t), resolved + [t])
    else
      ParentsBelow(known, t);
      var m := MergeParents(known, data, resolved, Parents(known, t), Rank(known, t));
      Resolution(Some(Assign(m.fields, Lookup(data, t))), m.resolved + [t])
  }

  ghost function MergeParents(known: Registry, data: Data, resolved: seq<TypeName>,
                              parents: seq<TypeName>, bound: nat): Merged
    requires Acyclic(known) && Below(known, parents, bound)
    decreases bound, 0, |parents|
  {
    if parents == [] then Merged(map[], resolved) else
      var last := parents[|parents| - 1];
      var before := MergeParents(known, data, resolved, parents[..|parents| - 1], bound);
      var r := Resolve(known, data, before.resolved, last);
      Merged(Assign(before.fields, r.fields), r.resolved)
  }

  datatype Store = Store(data: Data, resolved: seq<TypeName>)

  /** One turn of the loop in `setPlainData`. */
  ghost function StoreType(known: Registry, st: Store, t: TypeName): Store
    requires Acyclic(known)
  {
    var r := Resolve(known, st.data, st.resolved, t);
    Store(if r.fields.Some? && |r.fields.value| > 0 then st.data[t := r.fields.value] else st.data, r.resolved)
  }

  /** `setPlainData` on `raw`, whose keys are visited in `order`. */
  ghost function SetPlain(known: Registry, raw: Data, order: seq<TypeName>): Store
    requires Acyclic(known)
  {
    if order == [] then Store(raw, [])
    else StoreType(known, SetPlain(known, raw, order[..|order| - 1]), order[|order| - 1])
  }

  ghost predicate IsKeyOrder(raw: Data, order: seq<TypeName>) {
    && (forall t :: t in order <==> t in raw)
    && (forall i, j :: 0 <= i < j < |order| ==> order[i] != order[j])
  }

  // ---- The lookup --------------------------------------------------------

  function Reverse(names: seq<TypeName>): seq<TypeName> {
    if names == [] then [] else Reverse(names[1..]) + [names[0]]
  }

  /** `names.map(type => overwriteData[type]).filter(Boolean)` */
  function Present(data: Data, names: seq<TypeName>): seq<Fields> {
    if names == [] then []
    else
      var rest := Present(data, names[..|names| - 1]);
      var last := names[|names| - 1];
      if last in data then rest + [data[last]] else rest
  }

  function AssignAll(entries: seq<Fields>): Fields {
    if entries == [] then map[] else AssignAll(entries[..|entries| - 1]) + entries[|entries| - 1]
  }

  ghost function Get(known: Registry, data: Data, name: TypeName): Option<Fields>
    requires Acyclic(known)
  {
    var entries := Present(data, Reverse([name] + ParentTypes(known, name)));
    if |entries| == 0 then None else Some(AssignAll(entries))
  }

  function Definers(data: Data, f: FieldName): set<TypeName> {
    set t | t in data && f in data[t]
  }

  /** The value of `f` in the first type of `ts` that defines it. */
  function FirstDefined(data: Data, ts: seq<TypeName>, f: FieldName): Option<Value> {
    match FirstIn(ts, Definers(data, f))
    case None => None
    case Some(t) => Some(data[t][f])
  }

  lemma {:induction false} PresentAppend(data: Data, names: seq<TypeName>, t: TypeName)
    ensures Present(data, names + [t]) == if t in data then Present(data, names) + [data[t]] else Present(data, names)
  {
    assert (names + [t])[..|names + [t]| - 1] == names;
  }

  lemma {:induction false} AssignAllAppend(entries: seq<Fields>, fields: Fields)
    ensures AssignAll(entries + [fields]) == AssignAll(entries) + fields
  {
    assert (entries + [fields])[..|entries + [fields]| - 1] == entries;
  }

  lemma {:induction false} AssignReversed(data: Data, ts: seq<TypeName>, f: FieldName)
    ensures Field(Some(AssignAll(Present(data, Reverse(ts)))), f) == FirstDefined(data, ts, f)
    ensures |Present(data, Reverse(ts))| == 0 <==> forall t :: t in ts ==> t !in data
  {
    if ts != [] {
      hide Present, AssignAll;
      AssignReversed(data, ts[1..], f);
      assert ts == [ts[0]] + ts[1..];
      PresentAppend(data, Reverse(ts[1..]), ts[0]);
      if ts[0] in data {
        AssignAllAppend(Present(data, Reverse(ts[1..])), data[ts[0]]);
      }
    }
  }

  /** The merged result of `get` holds, for every field, the value of the first type in
      the list `[name, ...parents]` that stores one. */
  lemma {:induction false} GetFindsTheFirst(known: Registry, data: Data, name: TypeName, f: FieldName)
    requires Acyclic(known)
    ensures Field(Get(known, data, name), f) == FirstDefined(data, [name] + ParentTypes(known, name), f)
    ensures Get(known, data, name).None? <==> name !in data && forall a :: IsAncestor(known, a, name) ==> a !in data
  {
    var ts := [name] + ParentTypes(known, name);
    AssignReversed(data, ts, f);
    forall a ensures a in ts <==> a == name || IsAncestor(known, a, name) {
      ListedTypes(known, name, a);
    }
    if |Present(data, Reverse(ts))| == 0 {
      assert AssignAll(Present(data, Reverse(ts))) == map[];
    }
  }

  // ---- What the raw map means --------------------------------------------

  predicate Defines(raw: Data, t: TypeName, f: FieldName, v: Value) {
    t in raw && f in raw[t] && raw[t][f] == v
  }

  /** `v` is the raw value of `f` in `t` or in one of its ancestors. */
  ghost predicate Inherited(known: Registry, raw: Data, t: TypeName, f: FieldName, v: Value) {
    Defines(raw, t, f, v) || exists a :: IsAncestor(known, a, t) && Defines(raw, a, f, v)
  }

  /** The raw value of `f` in the nearest of `t` and its first-parent ancestors. */
  ghost function Nearest(known: Registry, raw: Data, t: TypeName, f: FieldName): Option<Value>
    requires Acyclic(known)
    decreases Rank(known, t)
  {
    if t in raw && f in raw[t] then Some(raw[t][f])
    else if Parents(known, t) == [] then None
    else
      ParentIsAncestor(known, Parents(known, t)[0], t);
      AncestorHasSmallerRank(known, Parents(known, t)[0], t);
      Nearest(known, raw, Parents(known, t)[0], f)
  }

  /** `fields` keeps t's raw fields and holds inherited values only, on a single line
      of inheritance the nearest ones. */
  ghost predicate Faithful(known: Registry, raw: Data, t: TypeName, fields: Fields)
    requires Acyclic(known)
  {
    && (t in raw ==> forall f :: f in raw[t] ==> f in fields && fields[f] == raw[t][f])
    && (forall f :: f in fields ==> Gives(known, raw, t, f, fields[f]))
  }

  ghost predicate StoredFaithful(known: Registry, raw: Data, data: Data)
    requires Acyclic(known)
  {
    data.Keys == raw.Keys && forall t :: t in raw ==> Faithful(known, raw, t, data[t])
  }

  lemma RawIsFaithful(known: Registry, raw: Data)
    requires Acyclic(known)
    ensures StoredFaithful(known, raw, raw)
  {}

  /** `v` is a value that a faithful map for `p` may hold for `f`. */
  ghost predicate Gives(known: Registry, raw: Data, p: TypeName, f: FieldName, v: Value)
    requires Acyclic(known)
  {
    Inherited(known, raw, p, f, v) && (SingleLine(known, p) ==> Nearest(known, raw, p, f) == Some(v))
  }

  ghost predicate FromParents(known: Registry, raw: Data, parents: seq<TypeName>, f: FieldName, v: Value)
    requires Acyclic(known)
  {
    exists p :: p in parents && Gives(known, raw, p, f, v)
  }

  /** Whatever has been resolved or stored so far, a resolution is faithful: a type that is
      cached as resolved without its merge being stored merely omits inherited fields. */
  lemma {:induction false} ResolveIsFaithful(known: Registry, raw: Data, data: Data, resolved: seq<TypeName>,
                                             t: TypeName)
    requires Acyclic(known) && StoredFaithful(known, raw, data)
    ensures var r := Resolve(known, data, resolved, t).fields;
            r.Some? ==> Faithful(known, raw, t, r.value)
    decreases Rank(known, t), 2
  {
    if t in resolved || t !in known || known[t].None? {
    } else {
      ParentsBelow(known, t);
      var m := MergeParents(known, data, resolved, Parents(known, t), Rank(known, t)).fields;
      forall f | f in m && !(t in data && f in data[t])
        ensures Gives(known, raw, t, f, m[f])
      {
        MergedFieldIsGiven(known, raw, data, resolved, t, f);
      }
    }
  }

  lemma {:induction false} MergedFieldIsGiven(known: Registry, raw: Data, data: Data, resolved: seq<TypeName>,
                                              t: TypeName, f: FieldName)
    requires Acyclic(known) && StoredFaithful(known, raw, data)
    requires Below(known, Parents(known, t), Rank(known, t))
    requires f in MergeParents(known, data, resolved, Parents(known, t), Rank(known, t)).fields
    requires !(t in raw && f in raw[t])
    ensures Gives(known, raw, t, f, MergeParents(known, data, resolved, Parents(known, t), Rank(known, t)).fields[f])
    decreases Rank(known, t), 1
  {
    hide StoredFaithful, MergeParents, IsAncestor, Acyclic, Rank, Below;
    var parents := Parents(known, t);
    var v := MergeParents(known, data, resolved, parents, Rank(known, t)).fields[f];
    MergeIsFromParents(known, raw, data, resolved, parents, Rank(known, t), f);
    var p :| p in parents && Gives(known, raw, p, f, v);
    ParentIsAncestor(known, p, t);
    InheritedFromAncestor(known, raw, p, t, f, v);
    if SingleLine(known, t) {
      SingleLineParent(known, t, p);
    }
  }

  lemma {:induction false} MergeIsFromParents(known: Registry, raw: Data, data: Data, resolved: seq<TypeName>,
                                              parents: seq<TypeName>, bound: nat, f: FieldName)
    requires Acyclic(known) && StoredFaithful(known, raw, data) && Below(known, parents, bound)
    requires f in MergeParents(known, data, resolved, parents, bound).fields
    ensures FromParents(known, raw, parents, f, MergeParents(known, data, resolved, parents, bound).fields[f])
    decreases bound, 0, |parents|
  {
    var init, last := parents[..|parents| - 1], parents[|parents| - 1];
    var before := MergeParents(known, data, resolved, init, bound);
    var v := MergeParents(known, data, resolved, parents, bound).fields[f];
    assert last in parents;
    ResolveIsFaithful(known, raw, data, before.resolved, last);
    var r := Resolve(known, data, before.resolved, last).fields;
    if r.Some? && f in r.value {
      assert Gives(known, raw, last, f, v);
    } else {
      MergeIsFromParents(known, raw, data, resolved, init, bound, f);
      var p :| p in init && Gives(known, raw, p, f, v);
      assert p in parents;
    }
  }

  lemma {:induction false} SetPlainIsFaithful(known: Registry, raw: Data, data: Data, order: seq<TypeName>)
    requires Acyclic(known) && StoredFaithful(known, raw, data)
    requires forall t :: t in order ==> t in raw
    ensures StoredFaithful(known, raw, SetPlain(known, data, order).data)
  {
    hide Resolve, IsAncestor, Acyclic, Faithful;
    if order != [] {
      var init, last := order[..|order| - 1], order[|order| - 1];
      SetPlainIsFaithful(known, raw, data, init);
      var st := SetPlain(known, data, init);
      ResolveIsFaithful(known, raw, st.data, st.resolved, last);
    }
  }

  /** Searching faithful entries along the chain finds the nearest raw value. */
  lemma {:induction false} ChainFindsNearest(known: Registry, raw: Data, data: Data, t: TypeName, f: FieldName)
    requires Acyclic(known) && StoredFaithful(known, raw, data) && SingleLine(known, t)
    ensures FirstDefined(data, [t] + Chain(known, t), f) == Nearest(known, raw, t, f)
    decreases Rank(known, t)
  {
    FirstInAppend([t], Chain(known, t), Definers(data, f));
    if Parents(known, t) != [] {
      var p := Parents(known, t)[0];
      ParentIsAncestor(known, p, t);
      AncestorHasSmallerRank(known, p, t);
      SingleLineParent(known, t, p);
      ChainFindsNearest(known, raw, data, p, f);
    }
  }

  lemma {:induction false} FaithfulGetIsNearest(known: Registry, raw: Data, data: Data, t: TypeName, f: FieldName)
    requires Acyclic(known) && StoredFaithful(known, raw, data) && SingleLine(known, t)
    ensures Field(Get(known, data, t), f) == Nearest(known, raw, t, f)
  {
    var s := Definers(data, f);
    GetFindsTheFirst(known, data, t, f);
    SearchesNearestFirst(known, t, s);
    FirstInAppend([t], ParentTypes(known, t), s);
    FirstInAppend([t], Chain(known, t), s);
    ChainFindsNearest(known, raw, data, t, f);
  }

  /** Main result: on a single line of inheritance, after `setPlainData` on any raw map in
      any key order, `get` maps each field to the raw value of the nearest type. */
  lemma {:induction false} GetIsNearest(known: Registry, raw: Data, order: seq<TypeName>, t: TypeName, f: FieldName)
    requires Acyclic(known) && IsKeyOrder(raw, order) && SingleLine(known, t)
    ensures Field(Get(known, SetPlain(known, raw, order).data, t), f) == Nearest(known, raw, t, f)
  {
    RawIsFaithful(known, raw);
    SetPlainIsFaithful(known, raw, raw, order);
    FaithfulGetIsNearest(known, raw, SetPlain(known, raw, order).data, t, f);
  }

  /** With several parents: the result still has exactly the inherited fields, each with
      a value some ancestor-or-self gives it, and a type's own value always wins. */
  lemma {:induction false} GetIsInherited(known: Registry, raw: Data, order: seq<TypeName>, t: TypeName, f: FieldName)
    requires Acyclic(known) && IsKeyOrder(raw, order)
    ensures var got := Field(Get(known, SetPlain(known, raw, order).data, t), f);
            && (got.Some? <==> exists v :: Inherited(known, raw, t, f, v))
            && (got.Some? ==> Inherited(known, raw, t, f, got.value))
            && (t in raw && f in raw[t] ==> got == Some(raw[t][f]))
  {
    RawIsFaithful(known, raw);
    SetPlainIsFaithful(known, raw, raw, order);
    FaithfulGetIsInherited(known, raw, SetPlain(known, raw, order).data, t, f);
  }

  lemma FaithfulGetIsInherited(known: Registry, raw: Data, data: Data, t: TypeName, f: FieldName)
    requires Acyclic(known) && StoredFaithful(known, raw, data)
    ensures var got := Field(Get(known, data, t), f);
            && (got.Some? <==> exists v :: Inherited(known, raw, t, f, v))
            && (got.Some? ==> Inherited(known, raw, t, f, got.value))
            && (t in raw && f in raw[t] ==> got == Some(raw[t][f]))
  {
    hide Get, ParentTypes, Acyclic, IsAncestor, Faithful, FirstIn;
    GetFindsTheFirst(known, data, t, f);
    var first := FirstIn([t] + ParentTypes(known, t), Definers(data, f));
    if first.Some? {
      ListedTypes(known, t, first.value);
      StoredIsInherited(known, raw, data, first.value, t, f);
    }
    if v :| Inherited(known, raw, t, f, v) {
      var a := Definer(known, raw, t, f, v);
      ListedTypes(known, t, a);
      DefinedIsStored(known, raw, data, a, f);
    }
    if t in raw && f in raw[t] {
      DefinedIsStored(known, raw, data, t, f);
      FirstInHead(t, ParentTypes(known, t), Definers(data, f));
    }
  }

  lemma {:induction false} FirstInHead(t: TypeName, ts: seq<TypeName>, s: set<TypeName>)
    requires t in s
    ensures FirstIn([t] + ts, s) == Some(t)
  {}

  lemma Definer(known: Registry, raw: Data, t: TypeName, f: FieldName, v: Value) returns (a: TypeName)
    requires Inherited(known, raw, t, f, v)
    ensures a == t || IsAncestor(known, a, t)
    ensures Defines(raw, a, f, v)
  {
    if Defines(raw, t, f, v) {
      a := t;
    } else {
      a :| IsAncestor(known, a, t) && Defines(raw, a, f, v);
    }
  }

  lemma DefinedIsStored(known: Registry, raw: Data, data: Data, a: TypeName, f: FieldName)
    requires Acyclic(known) && StoredFaithful(known, raw, data) && a in raw && f in raw[a]
    ensures a in Definers(data, f) && data[a][f] == raw[a][f]
  {
    assert Faithful(known, raw, a, data[a]);
  }

  lemma StoredIsInherited(known: Registry, raw: Data, data: Data, a: TypeName, t: TypeName, f: FieldName)
    requires Acyclic(known) && StoredFaithful(known, raw, data) && a in Definers(data, f)
    requires a == t || IsAncestor(known, a, t)
    ensures Inherited(known, raw, t, f, data[a][f])
  {
    hide IsAncestor, Nearest;
    assert Faithful(known, raw, a, data[a]);
    assert Gives(known, raw, a, f, data[a][f]);
    if a != t {
      InheritedFromAncestor(known, raw, a, t, f, data[a][f]);
    }
  }

  lemma {:induction false} ListedTypes(known: Registry, t: TypeName, a: TypeName)
    requires Acyclic(known)
    ensures a in [t] + ParentTypes(known, t) <==> a == t || IsAncestor(known, a, t)
  {
    MembersAreTheAncestors(known, t, a);
  }

  lemma InheritedFromAncestor(known: Registry, raw: Data, a: TypeName, t: TypeName, f: FieldName, v: Value)
    requires IsAncestor(known, a, t) && Inherited(known, raw, a, f, v)
    ensures Inherited(known, raw, t, f, v)
  {
    hide IsAncestor;
    if !Defines(raw, a, f, v) {
      var b :| IsAncestor(known, b, a) && Defines(raw, b, f, v);
      AncestorTransitive(known, b, a, t);
    }
  }

  // ---- Persisting and reloading ------------------------------------------

  /** Loading the saved, already merged map again, once for each key order given. */
  ghost function Reload(known: Registry, data: Data, orders: seq<seq<TypeName>>): Data
    requires Acyclic(known)
  {
    if orders == [] then data
    else SetPlain(known, Reload(known, data, orders[..|orders| - 1]), orders[|orders| - 1]).data
  }

  lemma {:induction false} ReloadIsFaithful(known: Registry, raw: Data, data: Data, orders: seq<seq<TypeName>>)
    requires Acyclic(known) && StoredFaithful(known, raw, data)
    requires forall o :: o in orders ==> IsKeyOrder(raw, o)
    ensures StoredFaithful(known, raw, Reload(known, data, orders))
  {
    if orders != [] {
      var last := orders[|orders| - 1];
      ReloadIsFaithful(known, raw, data, orders[..|orders| - 1]);
      assert last in orders;
      SetPlainIsFaithful(known, raw, Reload(known, data, orders[..|orders| - 1]), last);
    }
  }

  /** However often the merged map is saved and merged again, `get` does not change. */
  lemma {:induction false} ReloadKeepsGet(known: Registry, raw: Data, order: seq<TypeName>, orders: seq<seq<TypeName>>,
                                          t: TypeName, f: FieldName)
    requires Acyclic(known) && IsKeyOrder(raw, order) && SingleLine(known, t)
    requires forall o :: o in orders ==> IsKeyOrder(raw, o)
    ensures var stored := SetPlain(known, raw, order).data;
            Field(Get(known, Reload(known, stored, orders), t), f) == Field(Get(known, stored, t), f)
  {
    var stored := SetPlain(known, raw, order).data;
    RawIsFaithful(known, raw);
    SetPlainIsFaithful(known, raw, raw, order);
    ReloadIsFaithful(known, raw, stored, orders);
    FaithfulGetIsNearest(known, raw, stored, t, f);
    FaithfulGetIsNearest(known, raw, Reload(known, stored, orders), t, f);
  }

  // ---- Reloading in the same key order -------------------------------------

  /** Every type resolved so far stands for the same fields in both maps. */
  predicate SameOn(a: Data, b: Data, types: seq<TypeName>) {
    forall t :: t in types ==> Lookup(a, t) == Lookup(b, t)
  }

  /** Resolving only appends to the resolved types, and only `t` and its ancestors. */
  lemma {:induction false} ResolveAppends(known: Registry, data: Data, resolved: seq<TypeName>, t: TypeName)
    requires Acyclic(known)
    ensures var after := Resolve(known, data, resolved, t).resolved;
            && (forall x :: x in resolved ==> x in after)
            && (forall x :: x in after ==> x in resolved || x == t || IsAncestor(known, x, t))
    decreases Rank(known, t), 1
  {
    if t !in resolved && t in known && known[t].Some? {
      ParentsBelow(known, t);
      MergeAppends(known, data, resolved, t, Parents(known, t));
    }
  }

  lemma {:induction false} MergeAppends(known: Registry, data: Data, resolved: seq<TypeName>, t: TypeName,
                                        parents: seq<TypeName>)
    requires Acyclic(known) && Below(known, parents, Rank(known, t))
    requires forall p :: p in parents ==> p in Parents(known, t)
    ensures var after := MergeParents(known, data, resolved, parents, Rank(known, t)).resolved;
            && (forall x :: x in resolved ==> x in after)
            && (forall x :: x in after ==> x in resolved || IsAncestor(known, x, t))
    decreases Rank(known, t), 0, |parents|
  {
    hide IsAncestor, Acyclic;
    if parents != [] {
      var init, last := parents[..|parents| - 1], parents[|parents| - 1];
      MergeAppends(known, data, resolved, t, init);
      var before := MergeParents(known, data, resolved, init, Rank(known, t));
      ResolveAppends(known, data, before.resolved, last);
      ParentIsAncestor(known, last, t);
      forall x | x in Resolve(known, data, before.resolved, last).resolved
        ensures x in resolved || IsAncestor(known, x, t)
      {
        if x !in before.resolved && x != last { AncestorTransitive(known, x, last, t); }
      }
    }
  }

  /** A resolution depends only on what the types it leaves resolved stand for. */
  lemma {:induction false} ResolveDependsOn(known: Registry, a: Data, b: Data, resolved: seq<TypeName>, t: TypeName)
    requires Acyclic(known) && SameOn(a, b, Resolve(known, a, resolved, t).resolved)
    ensures Resolve(known, b, resolved, t) == Resolve(known, a, resolved, t)
    decreases Rank(known, t), 1
  {
    if t in known && t !in resolved && known[t].Some? {
      ParentsBelow(known, t);
      MergeDependsOn(known, a, b, resolved, Parents(known, t), Rank(known, t));
    }
  }

  lemma {:induction false} MergeDependsOn(known: Registry, a: Data, b: Data, resolved: seq<TypeName>,
                                          parents: seq<TypeName>, bound: nat)
    requires Acyclic(known) && Below(known, parents, bound)
    requires SameOn(a, b, MergeParents(known, a, resolved, parents, bound).resolved)
    ensures MergeParents(known, b, resolved, parents, bound) == MergeParents(known, a, resolved, parents, bound)
    decreases bound, 0, |parents|
  {
    hide Resolve;
    if parents != [] {
      var init, last := parents[..|parents| - 1], parents[|parents| - 1];
      assert last in parents;
      var before := MergeParents(known, a, resolved, init, bound);
      ResolveAppends(known, a, before.resolved, last);
      MergeDependsOn(known, a, b, resolved, init, bound);
      ResolveDependsOn(known, a, b, before.resolved, last);
    }
  }

  /** A type that is resolved keeps its entry through all later turns. */
  lemma {:induction false} ResolvedKeepTheirEntries(known: Registry, raw: Data, order: seq<TypeName>, k: nat)
    requires Acyclic(known) && k <= |order|
    ensures var st := SetPlain(known, raw, order[..k]);
            SameOn(st.data, SetPlain(known, raw, order).data, st.resolved)
    decreases |order|
  {
    hide Resolve, Acyclic, IsAncestor;
    if k < |order| {
      var init, last := order[..|order| - 1], order[|order| - 1];
      ResolvedKeepTheirEntries(known, raw, init, k);
      assert init[..k] == order[..k];
      var st := SetPlain(known, raw, init);
      ResolvedGrow(known, raw, init, k);
      TurnKeepsResolved(known, st, last);
    } else {
      assert order[..k] == order;
    }
  }

  lemma {:induction false} ResolvedGrow(known: Registry, raw: Data, order: seq<TypeName>, k: nat)
    requires Acyclic(known) && k <= |order|
    ensures forall x :: x in SetPlain(known, raw, order[..k]).resolved ==> x in SetPlain(known, raw, order).resolved
    decreases |order|
  {
    hide Resolve, Acyclic, IsAncestor;
    if k < |order| {
      var init, last := order[..|order| - 1], order[|order| - 1];
      ResolvedGrow(known, raw, init, k);
      assert init[..k] == order[..k];
      var st := SetPlain(known, raw, init);
      ResolveAppends(known, st.data, st.resolved, last);
    } else {
      assert order[..k] == order;
    }
  }

  lemma TurnKeepsResolved(known: Registry, st: Store, t: TypeName)
    requires Acyclic(known)
    ensures SameOn(st.data, StoreType(known, st, t).data, st.resolved)
  {
    assert t in st.resolved ==> Resolve(known, st.data, st.resolved, t) == Resolution(Lookup(st.data, t), st.resolved);
  }

  /** A turn over the finished map `done` stores what is there already. */
  lemma TurnRepeats(known: Registry, st: Store, done: Data, t: TypeName)
    requires Acyclic(known)
    requires var next := StoreType(known, st, t); SameOn(next.data, done, next.resolved)
    ensures StoreType(known, Store(done, st.resolved), t) == Store(done, StoreType(known, st, t).resolved)
  {
    hide IsAncestor, Rank, Below;
    ResolveAppends(known, st.data, st.resolved, t);
    if t in st.resolved || t !in known || known[t].None? {
      ResolveDependsOn(known, st.data, done, st.resolved, t);
    } else {
      ResolvesToItself(known, st, done, t);
    }
  }

  /** A type with parents that is not yet resolved: its finished entry absorbs the merge. */
  lemma {:induction false} ResolvesToItself(known: Registry, st: Store, done: Data, t: TypeName)
    requires Acyclic(known) && t !in st.resolved && t in known && known[t].Some?
    requires var next := StoreType(known, st, t); SameOn(next.data, done, next.resolved)
    ensures Resolve(known, done, st.resolved, t) == Resolve(known, st.data, st.resolved, t)
  {
    hide IsAncestor, Rank, Below, MergeParents;
    ParentsBelow(known, t);
    var parents := Parents(known, t);
    var m := MergeParents(known, st.data, st.resolved, parents, Rank(known, t));
    var next := StoreType(known, st, t);
    MergeAppends(known, st.data, st.resolved, t, parents);
    assert !IsAncestor(known, t, t);
    assert next.resolved == m.resolved + [t];
    assert SameOn(st.data, done, m.resolved);
    MergeDependsOn(known, st.data, done, st.resolved, parents, Rank(known, t));
    Absorbs(m.fields, Lookup(st.data, t));
    assert t in next.resolved;
    assert Lookup(done, t) == Lookup(next.data, t);
  }

  lemma Absorbs(merged: Fields, own: Option<Fields>)
    ensures Assign(merged, Some(Assign(merged, own))) == Assign(merged, own)
  {}

  lemma {:induction false} PassRepeats(known: Registry, raw: Data, order: seq<TypeName>, k: nat)
    requires Acyclic(known) && k <= |order|
    ensures var done := SetPlain(known, raw, order).data;
            SetPlain(known, done, order[..k]) == Store(done, SetPlain(known, raw, order[..k]).resolved)
  {
    hide Resolve, Acyclic, IsAncestor;
    if k > 0 {
      PassRepeats(known, raw, order, k - 1);
      assert order[..k][..k - 1] == order[..k - 1];
      ResolvedKeepTheirEntries(known, raw, order, k);
      TurnRepeats(known, SetPlain(known, raw, order[..k - 1]), SetPlain(known, raw, order).data, order[k - 1]);
    }
  }

  /** Whatever is resolved, every known type asked for is cached, and an unknown one is not. */
  lemma {:induction false} ResolveCaches(known: Registry, data: Data, resolved: seq<TypeName>, t: TypeName)
    requires Acyclic(known)
    ensures var r := Resolve(known, data, resolved, t);
            && (t in known ==> t in r.resolved)
            && (t !in known ==> r.resolved == resolved)
            && (t in known && t !in resolved ==> r.resolved[|r.resolved| - 1] == t)
            && (t in resolved ==> r == Resolution(Lookup(data, t), resolved))
            && (t !in known && t !in resolved ==> r.fields == None)
  {}

  lemma {:induction false} UnvisitedKeepsItsEntry(known: Registry, raw: Data, order: seq<TypeName>, t: TypeName)
    requires Acyclic(known) && t !in order
    ensures Lookup(SetPlain(known, raw, order).data, t) == Lookup(raw, t)
  {
    hide Resolve;
    if order != [] {
      var init, last := order[..|order| - 1], order[|order| - 1];
      assert last in order;
      UnvisitedKeepsItsEntry(known, raw, init, t);
    }
  }

  /** A type that was resolved by recursion before its own turn is cached without its merge: its entry
      is the raw one for good. */
  lemma {:induction false} CachedTypeKeepsItsRawEntry(known: Registry, raw: Data, order: seq<TypeName>,
                                                      k: nat, t: TypeName)
    requires Acyclic(known) && k <= |order| && t !in order[..k]
    requires t in SetPlain(known, raw, order[..k]).resolved
    ensures Lookup(SetPlain(known, raw, order).data, t) == Lookup(raw, t)
  {
    ResolvedKeepTheirEntries(known, raw, order, k);
    UnvisitedKeepsItsEntry(known, raw, order[..k], t);
  }

  ghost function ParentsMerge(known: Registry, st: Store, t: TypeName): Fields
    requires Acyclic(known)
  {
    ParentsBelow(known, t);
    MergeParents(known, st.data, st.resolved, Parents(known, t), Rank(known, t)).fields
  }

  /** A type whose turn comes before anything resolved it stores its merge: the union of its parents'
      resolutions, later ones first, under its own fields. */
  lemma VisitedTypeStoresItsMerge(known: Registry, st: Store, t: TypeName, f: FieldName)
    requires Acyclic(known) && t in known && t !in st.resolved && t in st.data
    ensures var next := StoreType(known, st, t).data;
            && t in next
            && (f in st.data[t] ==> f in next[t] && next[t][f] == st.data[t][f])
            && (f !in st.data[t] ==>
                  Field(Some(next[t]), f) ==
                    if known[t].None? then None
                    else Field(Some(ParentsMerge(known, st, t)), f))
  {
    ParentsBelow(known, t);
  }

  /** Main result on persistence, for any inheritance: merging the already merged map again
      in the same key order changes nothing, in the map and in the list of resolved types. */
  lemma {:induction false} ReloadIsIdentity(known: Registry, raw: Data, order: seq<TypeName>)
    requires Acyclic(known)
    ensures SetPlain(known, SetPlain(known, raw, order).data, order) == SetPlain(known, raw, order)
  {
    PassRepeats(known, raw, order, |order|);
    assert order[..|order|] == order;
  }

  // ---- Exactly when the lookup follows the list of ancestors ---------------

  /** `get` after `setPlainData` gives every field the raw value of the first type in
      `[t, ...getParentTypes(t)]` that defines it. */
  ghost predicate FollowsFor(known: Registry, raw: Data, order: seq<TypeName>, t: TypeName)
    requires Acyclic(known)
  {
    forall f :: Field(Get(known, SetPlain(known, raw, order).data, t), f)
             == FirstDefined(raw, [t] + ParentTypes(known, t), f)
  }

  ghost predicate FollowsTheList(known: Registry, raw: Data, order: seq<TypeName>)
    requires Acyclic(known)
  {
    forall t :: FollowsFor(known, raw, order, t)
  }

  /** Every listed parent is a known type and no type lists a parent twice. */
  ghost predicate WellFormed(known: Registry) {
    forall t, i | 0 <= i < |Parents(known, t)| ::
      Parents(known, t)[i] in known && Parents(known, t)[i] !in Parents(known, t)[..i]
  }

  lemma {:induction false} ResolveKeepsOwn(known: Registry, data: Data, resolved: seq<TypeName>,
                                           t: TypeName, f: FieldName)
    requires Acyclic(known) && t in known && t in data && f in data[t]
    ensures Field(Resolve(known, data, resolved, t).fields, f) == Some(data[t][f])
  {
    if t !in resolved && known[t].Some? {
      ParentsBelow(known, t);
    }
  }

  /** `t` has an entry of its own; both p and q define `f`. */
  function Conflict(t: TypeName, p: TypeName, q: TypeName, f: FieldName): Data {
    map[t := map[f + "'" := Null], p := map[f := Number(1)], q := map[f := Number(2)]]
  }

  /** A later parent wins while a type is resolved: the stored merge of `t` takes `f` from
      its last parent although the first parent defines it too. */
  lemma {:induction false} LastParentWins(known: Registry, t: TypeName, p: TypeName, q: TypeName, f: FieldName)
    requires Acyclic(known) && WellFormed(known) && |Parents(known, t)| >= 2
    requires p == Parents(known, t)[0] && q == Parents(known, t)[|Parents(known, t)| - 1]
    ensures IsKeyOrder(Conflict(t, p, q, f), [t, p, q])
    ensures Field(Get(known, SetPlain(known, Conflict(t, p, q, f), [t, p, q]).data, t), f) == Some(Number(2))
    ensures FirstDefined(Conflict(t, p, q, f), [t] + ParentTypes(known, t), f) == Some(Number(1))
  {
    hide Resolve, MergeParents, Get, ParentTypes, SetPlain, IsAncestor, Acyclic, WellFormed, FirstIn;
    var raw := Conflict(t, p, q, f);
    OuterParentsDiffer(known, t, p, q);
    assert |f + "'"| != |f|;
    StoredByTheFirstTurn(known, raw, t, q, f);
    ThreeTurns(known, raw, t, p, q);
    var data := SetPlain(known, raw, [t, p, q]).data;
    GetFindsTheFirst(known, data, t, f);
    FirstInHead(t, ParentTypes(known, t), Definers(data, f));
    DirectParentsFirst(known, t);
    ParentBeforeOthers(t, p, ParentTypes(known, t), Definers(raw, f));
  }

  lemma OuterParentsDiffer(known: Registry, t: TypeName, p: TypeName, q: TypeName)
    requires Acyclic(known) && WellFormed(known) && |Parents(known, t)| >= 2
    requires p == Parents(known, t)[0] && q == Parents(known, t)[|Parents(known, t)| - 1]
    ensures p != q && p != t && q != t && q in known
  {
    ParentIsAncestor(known, p, t);
    ParentIsAncestor(known, q, t);
    assert p in Parents(known, t)[..|Parents(known, t)| - 1];
  }

  lemma {:induction false} ParentBeforeOthers(t: TypeName, p: TypeName, ts: seq<TypeName>, s: set<TypeName>)
    requires t !in s && p in s && |ts| > 0 && ts[0] == p
    ensures FirstIn([t] + ts, s) == Some(p)
  {
    assert ([t] + ts)[1..] == ts;
  }

  lemma {:induction false} ThreeTurns(known: Registry, raw: Data, t: TypeName, p: TypeName, q: TypeName)
    requires Acyclic(known) && t != p && t != q
    ensures var first, last := StoreType(known, Store(raw, []), t).data, SetPlain(known, raw, [t, p, q]).data;
            t in first ==> t in last && last[t] == first[t]
  {
    hide Resolve, Acyclic;
    assert [t, p, q][..2] == [t, p] && [t, p][..1] == [t] && [t][..0] == [];
    assert SetPlain(known, raw, [t]) == StoreType(known, Store(raw, []), t);
    assert SetPlain(known, raw, [t, p]) == StoreType(known, SetPlain(known, raw, [t]), p);
    assert SetPlain(known, raw, [t, p, q]) == StoreType(known, SetPlain(known, raw, [t, p]), q);
  }

  lemma StoredByTheFirstTurn(known: Registry, raw: Data, t: TypeName, q: TypeName, f: FieldName)
    requires Acyclic(known) && |Parents(known, t)| >= 1 && q == Parents(known, t)[|Parents(known, t)| - 1]
    requires q in known && q in raw && f in raw[q]
    requires t in raw && f !in raw[t]
    ensures var data := StoreType(known, Store(raw, []), t).data;
            t in data && f in data[t] && data[t][f] == raw[q][f]
  {
    ParentsBelow(known, t);
    var parents := Parents(known, t);
    assert q in parents;
    var before := MergeParents(known, raw, [], parents[..|parents| - 1], Rank(known, t));
    ResolveKeepsOwn(known, raw, before.resolved, q, f);
    var m := MergeParents(known, raw, [], parents, Rank(known, t));
    assert f in m.fields && m.fields[f] == raw[q][f];
    assert f in Assign(m.fields, Lookup(raw, t));
  }

  /** Main result: the rule holds for a type, for all raw maps and key orders, if and only if neither
      the type nor any of its ancestors has two parents. */
  lemma FollowsTheListIffSingleLine(known: Registry, t: TypeName)
    requires Acyclic(known) && WellFormed(known)
    ensures (forall raw, order | IsKeyOrder(raw, order) :: FollowsFor(known, raw, order, t)) <==> SingleLine(known, t)
  {
    hide FollowsFor, Acyclic, WellFormed, IsKeyOrder, SetPlain, Get, SingleLine;
    if SingleLine(known, t) {
      forall raw, order | IsKeyOrder(raw, order)
        ensures FollowsFor(known, raw, order, t)
      {
        SingleLineFollows(known, raw, order, t);
      }
    } else {
      var raw, order := TwoParentsBreak(known, t);
      assert IsKeyOrder(raw, order) && !FollowsFor(known, raw, order, t);
    }
  }

  lemma SingleLineFollows(known: Registry, raw: Data, order: seq<TypeName>, t: TypeName)
    requires Acyclic(known) && IsKeyOrder(raw, order) && SingleLine(known, t)
    ensures FollowsFor(known, raw, order, t)
  {
    forall f
      ensures Field(Get(known, SetPlain(known, raw, order).data, t), f)
           == FirstDefined(raw, [t] + ParentTypes(known, t), f)
    {
      SingleParentsFollow(known, raw, order, t, f);
    }
  }

  /** An input on which the field "f" of `t` breaks the rule, all of whose types are `t` or ancestors. */
  ghost predicate Breaks(known: Registry, t: TypeName, raw: Data, order: seq<TypeName>)
    requires Acyclic(known)
  {
    && IsKeyOrder(raw, order) && (forall x :: x in raw ==> x == t || IsAncestor(known, x, t))
    && Field(Get(known, SetPlain(known, raw, order).data, t), "f")
         != FirstDefined(raw, [t] + ParentTypes(known, t), "f")
  }

  /** At the first ancestor with two parents the last one wins; below it the search goes there. */
  lemma {:induction false} TwoParentsBreak(known: Registry, t: TypeName) returns (raw: Data, order: seq<TypeName>)
    requires Acyclic(known) && WellFormed(known) && !SingleLine(known, t)
    ensures Breaks(known, t, raw, order) && IsKeyOrder(raw, order) && !FollowsFor(known, raw, order, t)
    decreases Rank(known, t)
  {
    hide Acyclic, WellFormed, IsKeyOrder, SetPlain, Get, ParentTypes, FirstDefined, IsAncestor, Rank;
    if !SingleParent(known, t) {
      var p, q := Parents(known, t)[0], Parents(known, t)[|Parents(known, t)| - 1];
      LastParentWins(known, t, p, q, "f");
      ParentIsAncestor(known, p, t);
      ParentIsAncestor(known, q, t);
      raw, order := Conflict(t, p, q, "f"), [t, p, q];
    } else {
      var a :| IsAncestor(known, a, t) && !SingleParent(known, a);
      AncestorCases(known, a, t);
      var p := Parents(known, t)[0];
      ParentIsAncestor(known, p, t);
      AncestorHasSmallerRank(known, p, t);
      raw, order := TwoParentsBreak(known, p);
      BreaksBelow(known, t, p, raw, order);
    }
  }

  lemma BreaksBelow(known: Registry, t: TypeName, p: TypeName, raw: Data, order: seq<TypeName>)
    requires Acyclic(known) && Parents(known, t) == [p] && Breaks(known, p, raw, order)
    ensures Breaks(known, t, raw, order)
  {
    hide SetPlain, Get, ParentTypes, IsAncestor, IsKeyOrder, FirstIn;
    var data := SetPlain(known, raw, order).data;
    ParentIsAncestor(known, p, t);
    forall x | x in raw
      ensures x != t && IsAncestor(known, x, t)
    {
      if x != p { AncestorTransitive(known, x, p, t); }
      assert !IsAncestor(known, t, t);
    }
    KeysStay(known, raw, order);
    GetFindsTheFirst(known, data, t, "f");
    GetFindsTheFirst(known, data, p, "f");
    SearchPastHead(known, t, p, Definers(data, "f"));
    SearchPastHead(known, t, p, Definers(raw, "f"));
  }

  lemma {:induction false} KeysStay(known: Registry, raw: Data, order: seq<TypeName>)
    requires Acyclic(known) && IsKeyOrder(raw, order)
    ensures SetPlain(known, raw, order).data.Keys == raw.Keys
  {
    RawIsFaithful(known, raw);
    SetPlainIsFaithful(known, raw, raw, order);
  }

  lemma {:induction false} SearchPastHead(known: Registry, t: TypeName, p: TypeName, s: set<TypeName>)
    requires Acyclic(known) && Parents(known, t) == [p] && t !in s
    ensures FirstIn([t] + ParentTypes(known, t), s) == FirstIn([p] + ParentTypes(known, p), s)
  {
    hide ParentTypes;
    SearchOnlyParent(known, t, p, s);
    FirstInAppend([t], ParentTypes(known, t), s);
  }

  /** The rule holds for all types, raw maps and key orders if and only if no type has two parents. */
  lemma FollowsTheListIffSingleParents(known: Registry)
    requires Acyclic(known) && WellFormed(known)
    ensures (forall raw, order | IsKeyOrder(raw, order) :: FollowsTheList(known, raw, order))
       <==> (forall t :: SingleParent(known, t))
  {
    hide FollowsFor, Acyclic, WellFormed, IsKeyOrder, SetPlain, Get;
    if forall t :: SingleParent(known, t) {
      forall raw, order | IsKeyOrder(raw, order)
        ensures FollowsTheList(known, raw, order)
      {
        forall t ensures FollowsFor(known, raw, order, t) { SingleLineFollows(known, raw, order, t); }
        }
    }
    if t :| !SingleParent(known, t) {
      var raw, order := TwoParentsBreak(known, t);
      assert IsKeyOrder(raw, order) && !FollowsTheList(known, raw, order);
    }
  }

  lemma {:induction false} SingleParentsFollow(known: Registry, raw: Data, order: seq<TypeName>,
                                               t: TypeName, f: FieldName)
    requires Acyclic(known) && IsKeyOrder(raw, order) && SingleLine(known, t)
    ensures Field(Get(known, SetPlain(known, raw, order).data, t), f)
         == FirstDefined(raw, [t] + ParentTypes(known, t), f)
  {
    GetIsNearest(known, raw, order, t, f);
    RawIsFaithful(known, raw);
    FaithfulGetIsNearest(known, raw, raw, t, f);
    GetFindsTheFirst(known, raw, t, f);
  }

  // ---- Applying overwrites to a stored credential --------------------------

  function Stored(data: Fields, f: FieldName): Option<Value> {
    if f in data then Some(data[f]) else None
  }

  /** Undefined, null or the empty string. */
  predicate IsEmpty(data: Fields, f: FieldName) {
    f !in data || data[f] == Null || data[f] == Text("")
  }

  predicate Customized(overwrites: Fields, data: Fields) {
    exists f :: f in overwrites && !IsEmpty(data, f) && data[f] != overwrites[f]
  }

  /** `applyOverwrite`, given the result of `get` and whether the type is on the skip list. */
  function Apply(overwrites: Option<Fields>, skip: bool, data: Fields): Fields {
    if overwrites.None? || (skip && Customized(overwrites.value, data)) then data
    else data + map f | f in overwrites.value && IsEmpty(data, f) :: overwrites.value[f]
  }

  predicate UsesManaged(overwrites: Option<Fields>, skip: bool, data: Fields) {
    overwrites.Some? && exists f :: f in overwrites.value && Stored(Apply(overwrites, skip, data), f) != Stored(data, f)
  }

  /** Undefined, null or the empty string. */
  predicate HasNoValue(data: Fields, f: FieldName) {
    Stored(data, f) in {None, Some(Null), Some(Text(""))}
  }

  /** Some overwritten field has a value other than the overwrite's. */
  predicate DiffersFrom(overwrites: Fields, data: Fields) {
    exists f :: f in overwrites && !HasNoValue(data, f) && Stored(data, f) != Some(overwrites[f])
  }

  /** An overwritten field without a value gets the overwrite's, unless the type is on the skip list and
      the credential differs from its overwrites; every other field stays. */
  predicate IsAppliedAt(overwrites: Option<Fields>, skip: bool, data: Fields, r: Fields, f: FieldName) {
    Stored(r, f) ==
      match overwrites
      case None => Stored(data, f)
      case Some(values) =>
        if f in values && HasNoValue(data, f) && !(skip && DiffersFrom(values, data)) then Some(values[f])
        else Stored(data, f)
  }

  ghost predicate IsApplied(overwrites: Option<Fields>, skip: bool, data: Fields, r: Fields) {
    forall f :: IsAppliedAt(overwrites, skip, data, r, f)
  }

  lemma AppliedMeaning(overwrites: Option<Fields>, skip: bool, data: Fields)
    ensures IsApplied(overwrites, skip, data, Apply(overwrites, skip, data))
  {
    forall f
      ensures IsAppliedAt(overwrites, skip, data, Apply(overwrites, skip, data), f)
    {
      ApplyMeaning(overwrites, skip, data, f);
    }
  }

  lemma ApplyMeaning(overwrites: Option<Fields>, skip: bool, data: Fields, f: FieldName)
    ensures IsAppliedAt(overwrites, skip, data, Apply(overwrites, skip, data), f)
  {
    if overwrites.Some? {
      assert forall g :: IsEmpty(data, g) <==> HasNoValue(data, g);
      assert Customized(overwrites.value, data) <==> DiffersFrom(overwrites.value, data) by {
        if g :| g in overwrites.value && !IsEmpty(data, g) && data[g] != overwrites.value[g] {
          assert !HasNoValue(data, g) && Stored(data, g) != Some(overwrites.value[g]);
        }
        if g :| g in overwrites.value && !HasNoValue(data, g) && Stored(data, g) != Some(overwrites.value[g]) {
          assert !IsEmpty(data, g) && data[g] != overwrites.value[g];
        }
      }
    }
  }

  lemma ApplyTwiceIsOnce(overwrites: Option<Fields>, skip: bool, data: Fields)
    ensures Apply(overwrites, skip, Apply(overwrites, skip, data)) == Apply(overwrites, skip, data)
  {
    if overwrites.Some? && !(skip && Customized(overwrites.value, data)) {
      var once := Apply(overwrites, skip, data);
      forall f | f in overwrites.value && IsEmpty(once, f)
        ensures once[f] == overwrites.value[f]
      {
        assert IsEmpty(data, f);
      }
      assert skip ==> !Customized(overwrites.value, once);
    }
  }

  /** Non-empty stored values are never changed, and nothing outside the overwrites is. */
  lemma ApplyKeepsUserValues(overwrites: Option<Fields>, skip: bool, data: Fields, f: FieldName)
    requires !IsEmpty(data, f) || overwrites.None? || f !in overwrites.value
    ensures Stored(Apply(overwrites, skip, data), f) == Stored(data, f)
  {}

  /** Applying leaves nothing more to inject. */
  lemma AppliedIsNotManaged(overwrites: Option<Fields>, skip: bool, data: Fields)
    ensures !UsesManaged(overwrites, skip, Apply(overwrites, skip, data))
  {
    ApplyTwiceIsOnce(overwrites, skip, data);
  }

  /** A credential is managed iff it is not a customized skip-list one and an empty field
      has an overwrite that differs from what is stored. */
  lemma ManagedIff(overwrites: Option<Fields>, skip: bool, data: Fields)
    ensures UsesManaged(overwrites, skip, data) <==>
      && overwrites.Some?
      && !(skip && Customized(overwrites.value, data))
      && exists f :: f in overwrites.value && IsEmpty(data, f) && Stored(data, f) != Some(overwrites.value[f])
  {
    if overwrites.Some? && !(skip && Customized(overwrites.value, data)) {
      if f :| f in overwrites.value && IsEmpty(data, f) && Stored(data, f) != Some(overwrites.value[f]) {
        assert Stored(Apply(overwrites, skip, data), f) == Some(overwrites.value[f]);
      }
    }
  }

  // ---- The service -------------------------------------------------------

  class CredentialsOverwrites {
    const known: Registry
    const skipTypes: set<TypeName>
    const persistence: bool
    var overwriteData: Data
    var resolvedTypes: seq<TypeName>
    /** The row of the settings table; encryption and JSON are the identity. */
    var saved: Option<Data>

    constructor (known: Registry, skipTypes: set<TypeName>, persistence: bool)
      ensures this.known == known && this.skipTypes == skipTypes && this.persistence == persistence
      ensures overwriteData == map[] && resolvedTypes == [] && saved == None
    {
      this.known, this.skipTypes, this.persistence := known, skipTypes, persistence;
      overwriteData, resolvedTypes, saved := map[], [], None;
    }

    method GetOverwrites(t: TypeName) returns (r: Option<Fields>)
      requires Acyclic(known)
      modifies this`resolvedTypes
      ensures Resolution(r, resolvedTypes) == Resolve(known, overwriteData, old(resolvedTypes), t)
      decreases Rank(known, t)
    {
      if t in resolvedTypes {
        return Lookup(overwriteData, t);
      }
      if t !in known {
        return None;
      }
      if known[t].None? {
        resolvedTypes := resolvedTypes + [t];
        return Lookup(overwriteData, t);
      }
      ParentsBelow(known, t);
      var extends_ := known[t].value;
      var overwrites: Fields := map[];
      for i := 0 to |extends_|
        invariant Merged(overwrites, resolvedTypes)
               == MergeParents(known, overwriteData, old(resolvedTypes), extends_[..i], Rank(known, t))
      {
        assert extends_[..i + 1][..i] == extends_[..i];
        assert extends_[i] in extends_;
        var inherited := GetOverwrites(extends_[i]);
        overwrites := Assign(overwrites, inherited);
      }
      assert extends_[..|extends_|] == extends_;
      overwrites := Assign(overwrites, Lookup(overwriteData, t));
      resolvedTypes := resolvedTypes + [t];
      return Some(overwrites);
    }

    /** `order` is the order in which the engine enumerates the keys of `raw`. */
    method SetPlainData(raw: Data, order: seq<TypeName>)
      requires Acyclic(known) && IsKeyOrder(raw, order)
      modifies this`overwriteData, this`resolvedTypes
      ensures Store(overwriteData, resolvedTypes) == SetPlain(known, raw, order)
    {
      resolvedTypes := [];
      overwriteData := raw;
      for i := 0 to |order|
        invariant Store(overwriteData, resolvedTypes) == SetPlain(known, raw, order[..i])
      {
        assert order[..i + 1][..i] == order[..i];
        var overwrites := GetOverwrites(order[i]);
        if overwrites.Some? && |overwrites.value| > 0 {
          overwriteData := overwriteData[order[i] := overwrites.value];
        }
      }
      assert order[..|order|] == order;
    }

    method SetData(raw: Data, order: seq<TypeName>, storeInDb: bool)
      requires Acyclic(known) && IsKeyOrder(raw, order)
      modifies this
      ensures Store(overwriteData, resolvedTypes) == SetPlain(known, raw, order)
      ensures saved == if storeInDb && persistence then Some(overwriteData) else old(saved)
    {
      SetPlainData(raw, order);
      if storeInDb && persistence {
        saved := Some(overwriteData);
      }
    }

    method LoadOverwriteDataFromDB(order: seq<TypeName>)
      requires Acyclic(known) && (saved.Some? ==> IsKeyOrder(saved.value, order))
      modifies this
      ensures saved == old(saved)
      ensures Store(overwriteData, resolvedTypes)
           == if saved.None? then old(Store(overwriteData, resolvedTypes)) else SetPlain(known, saved.value, order)
    {
      if saved.Some? {
        SetData(saved.value, order, false);
      }
    }

    method GetMerged(name: TypeName) returns (r: Option<Fields>)
      requires Acyclic(known)
      ensures r == Get(known, overwriteData, name)
    {
      var parentTypes := GetParentTypes(known, name);
      var entries := Present(overwriteData, Reverse([name] + parentTypes));
      if |entries| == 0 {
        return None;
      }
      return Some(AssignAll(entries));
    }

    /** `keys` is the order in which the engine enumerates the merged overwrites. */
    method ApplyOverwrite(t: TypeName, data: Fields, keys: seq<FieldName>) returns (r: Fields)
      requires Acyclic(known)
      requires forall f :: f in keys <==> Field(Get(known, overwriteData, t), f).Some?
      ensures r == Apply(Get(known, overwriteData, t), t in skipTypes, data)
      ensures IsApplied(Get(known, overwriteData, t), t in skipTypes, data, r)
    {
      var merged := GetMerged(t);
      AppliedMeaning(merged, t in skipTypes, data);
      hide IsApplied, Get, ParentTypes, Acyclic;
      if merged.None? {
        return data;
      }
      var overwrites := merged.value;
      if t in skipTypes && Customized(overwrites, data) {
        return data;
      }
      r := data;
      for i := 0 to |keys|
        invariant forall f :: Stored(r, f) ==
                    if f in keys[..i] && IsEmpty(data, f) then Field(merged, f) else Stored(data, f)
      {
        var key := keys[i];
        assert Field(merged, key).Some?;
        if IsEmpty(r, key) {
          r := r[key := overwrites[key]];
        }
        assert keys[..i + 1] == keys[..i] + [key];
      }
      assert keys[..|keys|] == keys;
      SameFields(r, Apply(merged, t in skipTypes, data));
    }
  }

  lemma SameFields(a: Fields, b: Fields)
    requires forall f :: Stored(a, f) == Stored(b, f)
    ensures a == b
  {
    assert forall f :: f in a <==> Stored(a, f).Some?;
    assert forall f :: f in b <==> Stored(b, f).Some?;
    assert forall f :: f in a ==> Stored(a, f) == Some(a[f]) && Stored(b, f) == Some(b[f]);
  }
}
