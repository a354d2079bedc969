/** The pass that repairs old-style and dangling credential references of a workflow,
    with one cache by name and one by id. */
module CredentialRepair {
  import opened Common

  datatype Details = Details(id: Option<string>, name: string)

  /** What a node holds for one credential type. */
  datatype Reference =
    | Missing
    | Gateway(details: Details)
    | OldStyle(name: string)
    | Current(details: Details)

  datatype Entry = Entry(typ: string, ref: Reference)
  datatype Node = Node(disabled: bool, credentials: Option<seq<Entry>>)

  /** A credential row; `usable` when the project may use it. */
  datatype Row = Row(id: string, name: string, typ: string, usable: bool)
  type Database = seq<Row>

  datatype Query =
    | ById(typ: string, id: string)
    | ByOldName(typ: string, name: string)
    | ByFallbackName(typ: string, name: string)

  type DetailsCache = map<(string, string), Details>
  datatype Cache = Cache(byName: DetailsCache, byId: DetailsCache, queries: seq<Query>)

  const EMPTY := Cache(map[], map[], [])

  function FindById(db: Database, typ: string, id: string): Option<Row> {
    if db == [] then None
    else if db[0].id == id && db[0].typ == typ then Some(db[0])
    else FindById(db[1..], typ, id)
  }

  function FindByName(db: Database, typ: string, name: string): seq<Row> {
    if db == [] then []
    else if db[0].name == name && db[0].typ == typ && db[0].usable then [db[0]] + FindByName(db[1..], typ, name)
    else FindByName(db[1..], typ, name)
  }

  predicate UniqueIds(db: Database) {
    forall i, j | 0 <= i < j < |db| :: db[i].id != db[j].id
  }

  function RowDetails(row: Row): Details {
    Details(Some(row.id), row.name)
  }

  // ---- Looking one reference up without any cache --------------------------

  predicate IsOld(ref: Reference) {
    ref.OldStyle? || (ref.Current? && ref.details.id.None?)
  }

  function OldName(ref: Reference): string
    requires IsOld(ref)
  {
    if ref.OldStyle? then ref.name else ref.details.name
  }

  function Plain(db: Database, typ: string, ref: Reference): Reference
    requires ref.OldStyle? || ref.Current?
  {
    if IsOld(ref) then
      var found := FindByName(db, typ, OldName(ref));
      if |found| == 1 then Current(RowDetails(found[0])) else ref
    else
      var byId := FindById(db, typ, ref.details.id.value);
      if byId.Some? then Current(RowDetails(byId.value))
      else
        var found := FindByName(db, typ, ref.details.name);
        if |found| == 1 then Current(RowDetails(found[0])) else ref
  }

  /** An unresolved old-style string counts as `{id: null, name}`. */
  function Normal(ref: Reference): Reference {
    if ref.OldStyle? then Current(Details(None, ref.name)) else ref
  }

  // ---- What the two queries return -----------------------------------------

  predicate IsNamed(row: Row, typ: string, name: string) {
    row.typ == typ && row.name == name && row.usable
  }

  predicate IsIdentified(row: Row, typ: string, id: string) {
    row.typ == typ && row.id == id
  }

  /** The query by name returns the usable rows of that name and type, each as often as it occurs. */
  lemma {:induction false} FindByNameExactly(db: Database, typ: string, name: string, row: Row)
    ensures multiset(FindByName(db, typ, name))[row] == if IsNamed(row, typ, name) then multiset(db)[row] else 0
  {
    if db != [] {
      FindByNameExactly(db[1..], typ, name, row);
      assert db == [db[0]] + db[1..];
    }
  }

  /** Row `k` is the only usable one of its name and type. */
  ghost predicate OnlyNamed(db: Database, typ: string, name: string, k: int) {
    && 0 <= k < |db| && IsNamed(db[k], typ, name)
    && forall m | 0 <= m < |db| && m != k :: !IsNamed(db[m], typ, name)
  }

  lemma {:induction false} FindsOnly(db: Database, typ: string, name: string, k: int)
    requires OnlyNamed(db, typ, name, k)
    ensures FindByName(db, typ, name) == [db[k]]
  {
    if k == 0 {
      FindsNone(db[1..], typ, name);
    } else {
      assert db[1..][k - 1] == db[k];
      assert forall m | 0 <= m < |db[1..]| :: db[1..][m] == db[m + 1];
      FindsOnly(db[1..], typ, name, k - 1);
    }
  }

  lemma {:induction false} FindsNone(db: Database, typ: string, name: string)
    requires forall m | 0 <= m < |db| :: !IsNamed(db[m], typ, name)
    ensures FindByName(db, typ, name) == []
  {
    if db != [] { FindsNone(db[1..], typ, name); }
  }

  /** One row is returned exactly if there is only one. */
  lemma {:induction false} FindsOneIff(db: Database, typ: string, name: string) returns (k: int)
    ensures |FindByName(db, typ, name)| == 1 ==> OnlyNamed(db, typ, name, k)
    ensures (exists m :: OnlyNamed(db, typ, name, m)) ==> |FindByName(db, typ, name)| == 1
  {
    k := 0;
    if m :| OnlyNamed(db, typ, name, m) {
      FindsOnly(db, typ, name, m);
      k := m;
    } else if |FindByName(db, typ, name)| == 1 {
      k := OnlyOneIsFound(db, typ, name);
    }
  }

  lemma {:induction false} OnlyOneIsFound(db: Database, typ: string, name: string) returns (k: int)
    requires |FindByName(db, typ, name)| == 1
    ensures OnlyNamed(db, typ, name, k)
  {
    if IsNamed(db[0], typ, name) {
      k := 0;
      NothingFound(db[1..], typ, name);
      assert forall m | 1 <= m < |db| :: db[m] == db[1..][m - 1];
    } else {
      k := OnlyOneIsFound(db[1..], typ, name);
      assert forall m | 1 <= m < |db| :: db[m] == db[1..][m - 1];
      k := k + 1;
    }
  }

  lemma {:induction false} NothingFound(db: Database, typ: string, name: string)
    requires FindByName(db, typ, name) == []
    ensures forall m | 0 <= m < |db| :: !IsNamed(db[m], typ, name)
  {
    if db != [] {
      NothingFound(db[1..], typ, name);
      assert forall m | 1 <= m < |db| :: db[m] == db[1..][m - 1];
    }
  }

  /** The query by id returns the first row of that id and type, and nothing iff there is none. */
  lemma {:induction false} FindByIdExactly(db: Database, typ: string, id: string)
    ensures FindById(db, typ, id).None? <==> forall row :: row in db ==> !IsIdentified(row, typ, id)
    ensures FindById(db, typ, id).Some? ==>
              FindById(db, typ, id).value in db && IsIdentified(FindById(db, typ, id).value, typ, id)
  {
    if db != [] {
      FindByIdExactly(db[1..], typ, id);
      var found := FindById(db, typ, id);
      assert found.Some? ==> found.value in db && IsIdentified(found.value, typ, id);
      forall row | found.None? && row in db
        ensures !IsIdentified(row, typ, id)
      {
        if row != db[0] { assert row in db[1..]; }
      }
    }
  }

  // ---- The cached pass as a function ---------------------------------------

  datatype Item = Item(active: bool, typ: string, ref: Reference)
  datatype Repaired = Repaired(ref: Reference, cache: Cache)

  predicate Active(unsafe: set<string>, disabled: bool, entry: Entry) {
    !disabled && entry.typ !in unsafe && !entry.ref.Missing? && !entry.ref.Gateway?
  }

  function RepairOld(db: Database, cache: Cache, typ: string, ref: Reference): Repaired
    requires IsOld(ref)
  {
    var key := (typ, OldName(ref));
    if key in cache.byName then Repaired(Current(cache.byName[key]), cache)
    else
      var found := FindByName(db, typ, OldName(ref));
      var queries := cache.queries + [ByOldName(typ, OldName(ref))];
      if |found| == 1 then
        Repaired(Current(RowDetails(found[0])),
                 cache.(byName := cache.byName[key := RowDetails(found[0])], queries := queries))
      else
        Repaired(ref, cache.(byName := cache.byName[key := Details(None, OldName(ref))], queries := queries))
  }

  function RepairCurrent(db: Database, cache: Cache, typ: string, ref: Reference): Repaired
    requires ref.Current? && ref.details.id.Some?
  {
    var id, name := ref.details.id.value, ref.details.name;
    if (typ, id) in cache.byId then Repaired(Current(cache.byId[(typ, id)]), cache)
    else
      var byId := FindById(db, typ, id);
      var queries := cache.queries + [ById(typ, id)];
      if byId.Some? then
        Repaired(Current(RowDetails(byId.value)),
                 cache.(byId := cache.byId[(typ, id) := RowDetails(byId.value)], queries := queries))
      else
        var found := FindByName(db, typ, name);
        var queries' := queries + [ByFallbackName(typ, name)];
        if |found| == 1 then
          Repaired(Current(RowDetails(found[0])),
                   cache.(byId := cache.byId[(typ, found[0].id) := RowDetails(found[0])], queries := queries'))
        else
          Repaired(ref, cache.(byId := cache.byId[(typ, id) := ref.details], queries := queries'))
  }

  function Repair(db: Database, cache: Cache, item: Item): Repaired {
    if !item.active || item.ref.Missing? || item.ref.Gateway? then Repaired(item.ref, cache)
    else if IsOld(item.ref) then RepairOld(db, cache, item.typ, item.ref)
    else RepairCurrent(db, cache, item.typ, item.ref)
  }

  datatype Passed = Passed(refs: seq<Reference>, cache: Cache)

  function Pass(db: Database, items: seq<Item>): (r: Passed)
    ensures |r.refs| == |items|
  {
    if items == [] then Passed([], EMPTY)
    else
      var before := Pass(db, items[..|items| - 1]);
      var r := Repair(db, before.cache, items[|items| - 1]);
      Passed(before.refs + [r.ref], r.cache)
  }

  lemma {:induction false} PassPrefix(db: Database, items: seq<Item>, k: nat)
    requires k < |items|
    ensures Pass(db, items).refs[k] == Repair(db, Pass(db, items[..k]).cache, items[k]).ref
  {
    var init := items[..|items| - 1];
    if k < |items| - 1 {
      PassPrefix(db, init, k);
      assert init[..k] == items[..k];
    }
  }

  // ---- What the caches hold ------------------------------------------------

  lemma {:induction false} FindByNameFinds(db: Database, typ: string, name: string, row: Row)
    requires row in FindByName(db, typ, name)
    ensures row in db && row.name == name && row.typ == typ
  {
    if db[0].name == name && db[0].typ == typ && db[0].usable && row == db[0] {
    } else {
      FindByNameFinds(db[1..], typ, name, row);
    }
  }

  lemma {:induction false} FindByIdFinds(db: Database, row: Row)
    requires UniqueIds(db) && row in db
    ensures FindById(db, row.typ, row.id) == Some(row)
  {
    if row != db[0] {
      var i :| 0 <= i < |db| && db[i] == row;
      assert db[1..][i - 1] == row;
      assert UniqueIds(db[1..]);
      FindByIdFinds(db[1..], row);
    }
  }

  lemma {:induction false} FindByIdKeepsId(db: Database, typ: string, id: string)
    ensures FindById(db, typ, id).Some? ==> FindById(db, typ, id).value.id == id
  {
    if db != [] { FindByIdKeepsId(db[1..], typ, id); }
  }

  /** An active reference that carries an id. */
  predicate HasId(item: Item) {
    item.active && item.ref.Current? && item.ref.details.id.Some?
  }

  function Key(item: Item): (string, string)
    requires HasId(item)
  {
    (item.typ, item.ref.details.id.value)
  }

  /** Neither the id nor the name of this reference leads to a row. */
  predicate Unresolvable(db: Database, item: Item) {
    && HasId(item)
    && FindById(db, item.typ, item.ref.details.id.value).None?
    && |FindByName(db, item.typ, item.ref.details.name)| != 1
  }

  ghost predicate NameCacheGood(db: Database, cache: Cache) {
    forall k :: k in cache.byName ==>
      cache.byName[k] == (var found := FindByName(db, k.0, k.1);
                          if |found| == 1 then RowDetails(found[0]) else Details(None, k.1))
  }

  /** A cached id is the row of that id, or the first unresolvable reference with it. */
  ghost predicate IdCacheGood(db: Database, items: seq<Item>, cache: Cache) {
    && (forall k :: k in cache.byId ==>
          var row := FindById(db, k.0, k.1);
          if row.Some? then cache.byId[k] == RowDetails(row.value)
          else exists i :: FirstUnresolved(db, items, k, i) && cache.byId[k] == items[i].ref.details)
    && (forall i | 0 <= i < |items| && Unresolvable(db, items[i]) :: Key(items[i]) in cache.byId)
  }

  /** Item `i` is the first unresolvable reference with this type and id. */
  ghost predicate FirstUnresolved(db: Database, items: seq<Item>, k: (string, string), i: int) {
    && 0 <= i < |items| && Unresolvable(db, items[i]) && Key(items[i]) == k
    && forall j | 0 <= j < i && Unresolvable(db, items[j]) :: Key(items[j]) != k
  }

  lemma {:induction false} CachesAreGood(db: Database, items: seq<Item>)
    requires UniqueIds(db)
    ensures NameCacheGood(db, Pass(db, items).cache) && IdCacheGood(db, items, Pass(db, items).cache)
  {
    if items != [] {
      var init, last := items[..|items| - 1], items[|items| - 1];
      CachesAreGood(db, init);
      var before, after := Pass(db, init).cache, Pass(db, items).cache;
      assert items == init + [last];
      NameStep(db, before, last);
      IdStep(db, init, before, last);
    }
  }

  lemma NameStep(db: Database, cache: Cache, item: Item)
    requires NameCacheGood(db, cache)
    ensures NameCacheGood(db, Repair(db, cache, item).cache)
  {}

  lemma IdStep(db: Database, items: seq<Item>, cache: Cache, item: Item)
    requires UniqueIds(db) && IdCacheGood(db, items, cache)
    ensures IdCacheGood(db, items + [item], Repair(db, cache, item).cache)
  {
    var all, after := items + [item], Repair(db, cache, item).cache;
    forall k, i | FirstUnresolved(db, items, k, i)
      ensures FirstUnresolved(db, all, k, i) && all[i] == items[i]
    {}
    if HasId(item) {
      var typ, id, name := item.typ, item.ref.details.id.value, item.ref.details.name;
      FindByIdKeepsId(db, typ, id);
      var found := FindByName(db, typ, name);
      if (typ, id) !in cache.byId && FindById(db, typ, id).None? && |found| == 1 {
        FindByNameFinds(db, typ, name, found[0]);
        FindByIdFinds(db, found[0]);
      }
      if (typ, id) !in cache.byId && Unresolvable(db, item) {
        assert FirstUnresolved(db, all, (typ, id), |items|);
      }
    }
    forall k | k in after.byId
      ensures var row := FindById(db, k.0, k.1);
              if row.Some? then after.byId[k] == RowDetails(row.value)
              else exists i :: FirstUnresolved(db, all, k, i) && after.byId[k] == all[i].ref.details
    {
      if k in cache.byId && after.byId[k] == cache.byId[k] && FindById(db, k.0, k.1).None? {
        var i :| FirstUnresolved(db, items, k, i) && cache.byId[k] == items[i].ref.details;
        assert FirstUnresolved(db, all, k, i);
      }
    }
  }

  // ---- Agreement with the plain lookup -------------------------------------

  predicate Lookable(item: Item) {
    item.active && (item.ref.OldStyle? || item.ref.Current?)
  }

  ghost predicate AgreesAt(db: Database, items: seq<Item>, k: nat)
    requires k < |items|
  {
    var got := Pass(db, items).refs[k];
    if Lookable(items[k]) then Normal(got) == Normal(Plain(db, items[k].typ, items[k].ref))
    else got == items[k].ref
  }

  /** A reference that follows an unresolvable one with the same type and id has its name. */
  ghost predicate NoStaleName(db: Database, items: seq<Item>) {
    forall i, j | 0 <= i < j < |items| && Unresolvable(db, items[i])
                  && HasId(items[j]) && Key(items[i]) == Key(items[j]) ::
      items[i].ref.details.name == items[j].ref.details.name
  }

  /** Disabled nodes, empty and gateway-managed references stay; old-style ones always agree. */
  lemma OldStyleAgrees(db: Database, items: seq<Item>, k: nat)
    requires UniqueIds(db) && k < |items| && !HasId(items[k])
    ensures AgreesAt(db, items, k)
  {
    PassPrefix(db, items, k);
    CachesAreGood(db, items[..k]);
  }

  lemma IdAgrees(db: Database, items: seq<Item>, k: nat)
    requires UniqueIds(db) && k < |items| && HasId(items[k]) && NoStaleName(db, items)
    ensures AgreesAt(db, items, k)
  {
    PassPrefix(db, items, k);
    CachesAreGood(db, items[..k]);
    var cache, key := Pass(db, items[..k]).cache, Key(items[k]);
    if key in cache.byId && FindById(db, key.0, key.1).None? {
      var i :| FirstUnresolved(db, items[..k], key, i) && cache.byId[key] == items[..k][i].ref.details;
      assert items[..k][i] == items[i];
    }
  }

  /** After an unresolvable reference, one with the same type and id is given the details
      of the first unresolvable one. */
  lemma StaleResult(db: Database, items: seq<Item>, i: nat, k: nat) returns (f: nat)
    requires UniqueIds(db) && i < k < |items| && Unresolvable(db, items[i]) && HasId(items[k])
    requires Key(items[i]) == Key(items[k])
    ensures f <= i && FirstUnresolved(db, items, Key(items[k]), f)
    ensures Pass(db, items).refs[k] == Current(items[f].ref.details)
  {
    PassPrefix(db, items, k);
    CachesAreGood(db, items[..k]);
    var cache, key := Pass(db, items[..k]).cache, Key(items[k]);
    assert items[..k][i] == items[i];
    assert key in cache.byId;
    f :| FirstUnresolved(db, items[..k], key, f) && cache.byId[key] == items[..k][f].ref.details;
    assert forall j | 0 <= j < k :: items[..k][j] == items[j];
  }

  lemma {:induction false} StaleAgreementNeedsTheName(db: Database, items: seq<Item>, f: nat, k: nat)
    requires UniqueIds(db) && f < |items| && k < |items| && HasId(items[k])
    requires Unresolvable(db, items[f]) && Key(items[f]) == Key(items[k])
    requires Pass(db, items).refs[k] == Current(items[f].ref.details) && AgreesAt(db, items, k)
    ensures items[f].ref.details.name == items[k].ref.details.name
  {
    var found := FindByName(db, items[k].typ, items[k].ref.details.name);
    if |found| == 1 {
      FindByNameFinds(db, items[k].typ, items[k].ref.details.name, found[0]);
      FindByIdFinds(db, found[0]);
    }
  }

  /** Main result: the cached pass gives every reference what the plain lookup gives it
      if and only if no reference follows an unresolvable one with its type and id under
      another name. */
  lemma AgreesIffNoStaleName(db: Database, items: seq<Item>)
    requires UniqueIds(db)
    ensures (forall k | 0 <= k < |items| :: AgreesAt(db, items, k)) <==> NoStaleName(db, items)
  {
    if NoStaleName(db, items) {
      forall k | 0 <= k < |items|
        ensures AgreesAt(db, items, k)
      {
        if HasId(items[k]) { IdAgrees(db, items, k); } else { OldStyleAgrees(db, items, k); }
      }
    }
    if forall k | 0 <= k < |items| :: AgreesAt(db, items, k) {
      forall i, j | 0 <= i < j < |items| && Unresolvable(db, items[i])
                    && HasId(items[j]) && Key(items[i]) == Key(items[j])
        ensures items[i].ref.details.name == items[j].ref.details.name
      {
        AgreementFixesTheName(db, items, i, j);
      }
    }
  }

  lemma AgreementFixesTheName(db: Database, items: seq<Item>, i: nat, j: nat)
    requires UniqueIds(db) && i < j < |items| && Unresolvable(db, items[i]) && HasId(items[j])
    requires Key(items[i]) == Key(items[j]) && AgreesAt(db, items, i) && AgreesAt(db, items, j)
    ensures items[i].ref.details.name == items[j].ref.details.name
  {
    var f := StaleResult(db, items, i, j);
    StaleAgreementNeedsTheName(db, items, f, j);
    if f < i {
      var g := StaleResult(db, items, f, i);
      assert g == f;
      StaleAgreementNeedsTheName(db, items, f, i);
    }
  }

  // ---- How often the database is asked -------------------------------------

  /** Answers to these queries are cached under the key that was asked for. */
  predicate CachedQuery(db: Database, q: Query) {
    q.ByOldName? || (q.ById? && FindById(db, q.typ, q.id).Some?)
  }

  predicate AskedAtMostOnce(db: Database, queries: seq<Query>) {
    forall a, b | 0 <= a < b < |queries| && CachedQuery(db, queries[a]) :: queries[a] != queries[b]
  }

  predicate QueriesCached(db: Database, cache: Cache) {
    forall q | q in cache.queries && CachedQuery(db, q) ::
      if q.ByOldName? then (q.typ, q.name) in cache.byName else (q.typ, q.id) in cache.byId
  }

  /** An old-style (type, name) is looked up at most once, and so is the id of an existing row. */
  lemma {:induction false} LooksUpOnce(db: Database, items: seq<Item>)
    ensures AskedAtMostOnce(db, Pass(db, items).cache.queries)
    ensures QueriesCached(db, Pass(db, items).cache)
  {
    if items != [] {
      LooksUpOnce(db, items[..|items| - 1]);
    }
  }

  /** A name is cached exactly if it was queried, and every cached id goes back to a query. */
  lemma {:induction false} CachedIffQueried(db: Database, items: seq<Item>)
    ensures var cache := Pass(db, items).cache;
            && (forall typ, name :: (typ, name) in cache.byName <==> ByOldName(typ, name) in cache.queries)
            && (forall typ, id :: (typ, id) in cache.byId ==>
                  ById(typ, id) in cache.queries || exists name :: ByFallbackName(typ, name) in cache.queries)
  {
    if items != [] {
      CachedIffQueried(db, items[..|items| - 1]);
    }
  }

  // ---- Nodes ---------------------------------------------------------------

  function EntryItems(unsafe: set<string>, disabled: bool, entries: seq<Entry>): seq<Item> {
    seq(|entries|, j requires 0 <= j < |entries| =>
      Item(Active(unsafe, disabled, entries[j]), entries[j].typ, entries[j].ref))
  }

  function NodeItems(unsafe: set<string>, node: Node): seq<Item> {
    if node.credentials.None? then [] else EntryItems(unsafe, node.disabled, node.credentials.value)
  }

  /** All references of the workflow in the order in which the loops reach them. */
  function Items(unsafe: set<string>, nodes: seq<Node>): seq<Item> {
    if nodes == [] then []
    else Items(unsafe, nodes[..|nodes| - 1]) + NodeItems(unsafe, nodes[|nodes| - 1])
  }

  function EntryRefs(entries: seq<Entry>): seq<Reference> {
    seq(|entries|, j requires 0 <= j < |entries| => entries[j].ref)
  }

  function NodeRefs(node: Node): seq<Reference> {
    if node.credentials.None? then [] else EntryRefs(node.credentials.value)
  }

  function Refs(nodes: seq<Node>): seq<Reference> {
    if nodes == [] then [] else Refs(nodes[..|nodes| - 1]) + NodeRefs(nodes[|nodes| - 1])
  }

  /** Everything but the references is the same. */
  predicate SameEntries(a: seq<Entry>, b: seq<Entry>) {
    |a| == |b| && forall j | 0 <= j < |a| :: a[j].typ == b[j].typ
  }

  predicate SameNode(a: Node, b: Node) {
    && a.disabled == b.disabled && a.credentials.Some? == b.credentials.Some?
    && (a.credentials.Some? ==> SameEntries(a.credentials.value, b.credentials.value))
  }

  lemma {:induction false} ItemsAppend(unsafe: set<string>, nodes: seq<Node>, i: nat)
    requires i < |nodes|
    ensures Items(unsafe, nodes[..i + 1]) == Items(unsafe, nodes[..i]) + NodeItems(unsafe, nodes[i])
    ensures Refs(nodes[..i + 1]) == Refs(nodes[..i]) + NodeRefs(nodes[i])
  {
    assert nodes[..i + 1][..i] == nodes[..i];
  }

  lemma {:induction false} InactivePass(db: Database, items: seq<Item>, more: seq<Item>)
    requires forall x | x in more :: !x.active
    ensures Pass(db, items + more).cache == Pass(db, items).cache
    ensures Pass(db, items + more).refs == Pass(db, items).refs + seq(|more|, k requires 0 <= k < |more| => more[k].ref)
    decreases |more|
  {
    if more == [] {
      assert items + more == items;
    } else {
      var init, last := more[..|more| - 1], more[|more| - 1];
      InactivePass(db, items, init);
      assert (items + more)[..|items + more| - 1] == items + init;
      assert last in more;
    }
  }

  lemma {:induction false} PassOneMore(db: Database, items: seq<Item>, more: seq<Item>, j: nat)
    requires j < |more|
    ensures var before := Pass(db, items + more[..j]);
            var r := Repair(db, before.cache, more[j]);
            Pass(db, items + more[..j + 1]) == Passed(before.refs + [r.ref], r.cache)
  {
    var all := items + more[..j + 1];
    assert all[..|all| - 1] == items + more[..j];
  }

  // ---- What the nodes get --------------------------------------------------

  /** How many references the nodes before `i` hold. */
  function Offset(nodes: seq<Node>, i: nat): nat
    requires i <= |nodes|
  {
    if i == 0 then 0
    else Offset(nodes, i - 1) + if nodes[i - 1].credentials.None? then 0 else |nodes[i - 1].credentials.value|
  }

  predicate HasEntry(nodes: seq<Node>, i: int, j: int) {
    0 <= i < |nodes| && nodes[i].credentials.Some? && 0 <= j < |nodes[i].credentials.value|
  }

  lemma {:induction false} Lengths(unsafe: set<string>, nodes: seq<Node>, n: nat)
    requires n <= |nodes|
    ensures |Items(unsafe, nodes[..n])| == |Refs(nodes[..n])| == Offset(nodes, n)
  {
    if n > 0 {
      Lengths(unsafe, nodes, n - 1);
      ItemsAppend(unsafe, nodes, n - 1);
    }
  }

  /** Where entry `j` of node `i` stands among all references. */
  lemma {:induction false} Position(unsafe: set<string>, nodes: seq<Node>, n: nat, i: nat, j: nat)
    requires i < n <= |nodes| && HasEntry(nodes, i, j)
    ensures Offset(nodes, i) + j < |Items(unsafe, nodes[..n])| == |Refs(nodes[..n])|
    ensures Refs(nodes[..n])[Offset(nodes, i) + j] == nodes[i].credentials.value[j].ref
    ensures Items(unsafe, nodes[..n])[Offset(nodes, i) + j] == EntryItem(unsafe, nodes[i], j)
  {
    hide Items, Refs;
    ItemsAppend(unsafe, nodes, n - 1);
    Lengths(unsafe, nodes, n - 1);
    Lengths(unsafe, nodes, n);
    if i < n - 1 {
      Position(unsafe, nodes, n - 1, i, j);
    }
  }

  function EntryItem(unsafe: set<string>, node: Node, j: nat): Item
    requires node.credentials.Some? && j < |node.credentials.value|
  {
    var entry := node.credentials.value[j];
    Item(Active(unsafe, node.disabled, entry), entry.typ, entry.ref)
  }

  lemma {:induction false} SameOffsets(a: seq<Node>, b: seq<Node>, i: nat)
    requires |a| == |b| && i <= |a| && forall m | 0 <= m < |a| :: SameNode(a[m], b[m])
    ensures Offset(a, i) == Offset(b, i)
  {
    if i > 0 { SameOffsets(a, b, i - 1); }
  }

  /** No reference before position `k` has the same type and id and leads to no row. */
  predicate NoneUnresolvableBefore(db: Database, items: seq<Item>, k: nat)
    requires k < |items|
  {
    forall m | 0 <= m < k && Unresolvable(db, items[m]) && HasId(items[k]) :: Key(items[m]) != Key(items[k])
  }

  /** What the reference of entry `j` becomes, in terms of the rows; `firstOfKey` if no earlier
      reference with its type and id was unresolvable. */
  ghost predicate IsRepaired(db: Database, unsafe: set<string>, node: Node, j: nat, now: Reference, firstOfKey: bool)
    requires node.credentials.Some? && j < |node.credentials.value|
  {
    var typ, was := node.credentials.value[j].typ, node.credentials.value[j].ref;
    if node.disabled || typ in unsafe then now == was
    else
      match was
      case Missing => now == was
      case Gateway(_) => now == was
      case OldStyle(name) => IsRepairedByName(db, typ, name, was, now)
      case Current(Details(None, name)) => IsRepairedByName(db, typ, name, was, now)
      case Current(Details(Some(id), name)) =>
        && (forall row :: row in db && IsIdentified(row, typ, id) ==> now == Current(Details(Some(id), row.name)))
        && ((forall row :: row in db ==> !IsIdentified(row, typ, id)) && firstOfKey ==>
              IsRepairedByName(db, typ, name, was, now))
  }

  /** The only usable row of the name is taken; without one the reference stays, as a string or not. */
  ghost predicate IsRepairedByName(db: Database, typ: string, name: string, was: Reference, now: Reference) {
    && (forall k :: OnlyNamed(db, typ, name, k) ==> now == Current(Details(Some(db[k].id), db[k].name)))
    && ((forall k :: !OnlyNamed(db, typ, name, k)) ==> Normal(now) == Normal(was))
  }

  /** The result at each position of the pass, without the caches. */
  lemma {:induction false} PositionIsRepaired(db: Database, unsafe: set<string>, items: seq<Item>, k: nat,
                                              node: Node, j: nat)
    requires UniqueIds(db) && k < |items|
    requires node.credentials.Some? && j < |node.credentials.value| && items[k] == EntryItem(unsafe, node, j)
    ensures IsRepaired(db, unsafe, node, j, Pass(db, items).refs[k], NoneUnresolvableBefore(db, items, k))
  {
    hide Pass, OnlyNamed, UniqueIds;
    PassPrefix(db, items, k);
    CachesAreGood(db, items[..k]);
    var item := items[k];
    if item.active && item.ref.Current? && item.ref.details.id.Some? {
      IdIsRepaired(db, items, k);
    } else if item.active && IsOld(item.ref) {
      NameIsRepaired(db, Pass(db, items[..k]).cache, item.typ, item.ref);
    }
  }

  lemma NameIsRepaired(db: Database, cache: Cache, typ: string, ref: Reference)
    requires IsOld(ref) && NameCacheGood(db, cache)
    ensures IsRepairedByName(db, typ, OldName(ref), ref, RepairOld(db, cache, typ, ref).ref)
  {
    FoundIsRepaired(db, typ, OldName(ref), ref);
  }

  lemma {:induction false} FoundIsRepaired(db: Database, typ: string, name: string, was: Reference)
    ensures var found := FindByName(db, typ, name);
            && (|found| == 1 ==> IsRepairedByName(db, typ, name, was, Current(RowDetails(found[0]))))
            && (|found| != 1 ==> forall k :: !OnlyNamed(db, typ, name, k))
  {
    var k := FindsOneIff(db, typ, name);
    forall m | OnlyNamed(db, typ, name, m)
      ensures FindByName(db, typ, name) == [db[m]]
    {
      FindsOnly(db, typ, name, m);
    }
  }

  lemma {:induction false} IdIsRepaired(db: Database, items: seq<Item>, k: nat)
    requires UniqueIds(db) && k < |items| && HasId(items[k]) && IdCacheGood(db, items[..k], Pass(db, items[..k]).cache)
    ensures var typ, id, name := items[k].typ, items[k].ref.details.id.value, items[k].ref.details.name;
            var now := Repair(db, Pass(db, items[..k]).cache, items[k]).ref;
            && (forall row :: row in db && IsIdentified(row, typ, id) ==> now == Current(Details(Some(id), row.name)))
            && ((forall row :: row in db ==> !IsIdentified(row, typ, id)) && NoneUnresolvableBefore(db, items, k) ==>
                  IsRepairedByName(db, typ, name, items[k].ref, now))
  {
    hide Pass, UniqueIds, OnlyNamed;
    var typ, id, name := items[k].typ, items[k].ref.details.id.value, items[k].ref.details.name;
    FindByIdExactly(db, typ, id);
    FoundIsRepaired(db, typ, name, items[k].ref);
    forall row | row in db && IsIdentified(row, typ, id)
      ensures FindById(db, typ, id) == Some(row)
    {
      FindByIdFinds(db, row);
    }
    var cache := Pass(db, items[..k]).cache;
    if (typ, id) in cache.byId && FindById(db, typ, id).None? {
      var f :| FirstUnresolved(db, items[..k], (typ, id), f) && cache.byId[(typ, id)] == items[..k][f].ref.details;
      assert items[..k][f] == items[f] && Unresolvable(db, items[f]);
    }
  }

  /** The inner loop: the references of one enabled node, rewritten in place. */
  method RepairNode(db: Database, unsafe: set<string>, nodes: array<Node>, i: nat, cacheIn: Cache,
                    ghost items: seq<Item>)
    returns (cache: Cache)
    requires i < nodes.Length && nodes[i].credentials.Some? && !nodes[i].disabled
    requires cacheIn == Pass(db, items).cache
    modifies nodes
    ensures nodes[..] == old(nodes[..])[i := nodes[i]]
    ensures SameNode(nodes[i], old(nodes[i]))
    ensures Pass(db, items + NodeItems(unsafe, old(nodes[i])))
         == Passed(Pass(db, items).refs + NodeRefs(nodes[i]), cache)
  {
    hide Repair, Pass;
    var node := nodes[i];
    var entries := node.credentials.value;
    cache := cacheIn;
    ghost var more := NodeItems(unsafe, node);
    assert items + more[..0] == items;
    for j := 0 to |entries|
      invariant nodes[..] == old(nodes[..])[i := nodes[i]]
      invariant SameNode(nodes[i], node)
      invariant nodes[i].credentials.value[j..] == entries[j..]
      invariant Pass(db, items + more[..j])
             == Passed(Pass(db, items).refs + EntryRefs(nodes[i].credentials.value[..j]), cache)
    {
      var entry := entries[j];
      ghost var before := nodes[i].credentials.value;
      var r := Repair(db, cache, Item(Active(unsafe, node.disabled, entry), entry.typ, entry.ref));
      cache := r.cache;
      nodes[i] := nodes[i].(credentials := Some(nodes[i].credentials.value[j := Entry(entry.typ, r.ref)]));
      PassOneMore(db, items, more, j);
      ghost var after := nodes[i].credentials.value;
      assert EntryRefs(after[..j + 1]) == EntryRefs(before[..j]) + [r.ref];
    }
    assert more[..|entries|] == more;
    assert nodes[i].credentials.value[..|entries|] == nodes[i].credentials.value;
  }

  /** Repairs the nodes in place, sequentially, and lists the database queries it made. */
  method ReplaceInvalidCredentials(db: Database, unsafe: set<string>, nodes: array<Node>) returns (queries: seq<Query>)
    modifies nodes
    ensures forall i | 0 <= i < nodes.Length :: SameNode(nodes[i], old(nodes[i]))
    ensures Refs(nodes[..]) == Pass(db, Items(unsafe, old(nodes[..]))).refs
    ensures queries == Pass(db, Items(unsafe, old(nodes[..]))).cache.queries
    ensures UniqueIds(db) ==> forall i, j | HasEntry(old(nodes[..]), i, j) ::
              EntryIsRepaired(db, unsafe, old(nodes[..]), nodes[..], i, j)
  {
    hide Repair, Pass, NodeItems, NodeRefs;
    ghost var was := nodes[..];
    var cache := EMPTY;
    PassOfNothing(db);
    for i := 0 to nodes.Length
      invariant nodes[i..] == was[i..]
      invariant forall m | 0 <= m < i :: SameNode(nodes[m], was[m])
      invariant Passed(Refs(nodes[..i]), cache) == Pass(db, Items(unsafe, was[..i]))
    {
      ghost var before := nodes[..];
      ghost var items := Items(unsafe, was[..i]);
      assert nodes[i] == nodes[i..][0] == was[i];
      ItemsAppend(unsafe, was, i);
      if nodes[i].credentials.None? || nodes[i].disabled {
        SkippedNode(db, unsafe, items, nodes[i]);
      } else {
        cache := RepairNode(db, unsafe, nodes, i, cache, items);
      }
      ItemsAppend(unsafe, nodes[..], i);
      assert nodes[..][..i] == before[..i] == nodes[..i] && nodes[..][..i + 1] == nodes[..i + 1];
    }
    assert nodes[..nodes.Length] == nodes[..] && was[..nodes.Length] == was;
    queries := cache.queries;
    if UniqueIds(db) { EveryReferenceIsRepaired(db, unsafe, was, nodes[..]); }
  }

  /** No earlier reference of the workflow with the same type and id was unresolvable. */
  ghost predicate FirstOfKey(db: Database, unsafe: set<string>, nodes: seq<Node>, i: int, j: int)
    requires HasEntry(nodes, i, j)
  {
    var items, k := Items(unsafe, nodes), Offset(nodes, i) + j;
    k < |items| && NoneUnresolvableBefore(db, items, k)
  }

  ghost predicate EntryIsRepaired(db: Database, unsafe: set<string>, was: seq<Node>, now: seq<Node>, i: int, j: int)
    requires HasEntry(was, i, j)
  {
    && HasEntry(now, i, j)
    && IsRepaired(db, unsafe, was[i], j, now[i].credentials.value[j].ref, FirstOfKey(db, unsafe, was, i, j))
  }

  lemma {:induction false} EveryReferenceIsRepaired(db: Database, unsafe: set<string>, was: seq<Node>, now: seq<Node>)
    requires UniqueIds(db) && |was| == |now| && forall m | 0 <= m < |was| :: SameNode(now[m], was[m])
    requires Refs(now) == Pass(db, Items(unsafe, was)).refs
    ensures forall i, j | HasEntry(was, i, j) :: EntryIsRepaired(db, unsafe, was, now, i, j)
  {
    hide Pass, Items, Refs, IsRepaired, NoneUnresolvableBefore;
    assert was[..|was|] == was && now[..|now|] == now;
    forall i, j | HasEntry(was, i, j)
      ensures EntryIsRepaired(db, unsafe, was, now, i, j)
    {
      Position(unsafe, was, |was|, i, j);
      assert SameNode(now[i], was[i]);
      Position(unsafe, now, |now|, i, j);
      SameOffsets(was, now, i);
      assert HasEntry(now, i, j);
      PositionIsRepaired(db, unsafe, Items(unsafe, was), Offset(was, i) + j, was[i], j);
    }
  }

  lemma {:induction false} PassOfNothing(db: Database)
    ensures Pass(db, []) == Passed([], EMPTY)
  {}

  lemma {:induction false} SkippedNode(db: Database, unsafe: set<string>, items: seq<Item>, node: Node)
    requires node.credentials.None? || node.disabled
    ensures Pass(db, items + NodeItems(unsafe, node))
         == Passed(Pass(db, items).refs + NodeRefs(node), Pass(db, items).cache)
  {
    InactivePass(db, items, NodeItems(unsafe, node));
  }
}
