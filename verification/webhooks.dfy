/** Registration of a workflow's webhooks in the shared webhook table, with rollback. */
module Webhooks {
  import opened Common

  type WorkflowId = nat

  datatype Row = Row(workflow: WorkflowId, node: string)
  type Key = (string, string)
  type Table = map<Key, Row>

  datatype Hook = Hook(path: string, httpMethod: string, node: string, nodeId: string)

  predicate IsSpace(c: char) { c == ' ' || c == '\t' || c == '\n' || c == '\r' }

  function TrimStart(s: string): string {
    if s != "" && IsSpace(s[0]) then TrimStart(s[1..]) else s
  }

  function TrimEnd(s: string): string {
    if s != "" && IsSpace(s[|s| - 1]) then TrimEnd(s[..|s| - 1]) else s
  }

  /** `normalizeWebhookPath`: trimmed, without one leading and one trailing slash. */
  function NormalizePath(path: string): string {
    StripSlashes(TrimEnd(TrimStart(path)))
  }

  function StripSlashes(trimmed: string): string {
    var tail := if trimmed != "" && trimmed[0] == '/' then trimmed[1..] else trimmed;
    if tail != "" && tail[|tail| - 1] == '/' then tail[..|tail| - 1] else tail
  }

  predicate AllSpace(s: string) {
    forall c :: c in s ==> c == ' ' || c == '\t' || c == '\n' || c == '\r'
  }

  predicate Trimmed(s: string) {
    s != "" ==> !AllSpace(s[..1]) && !AllSpace(s[|s| - 1..])
  }

  lemma {:induction false} TrimStartMeaning(s: string) returns (space: string)
    ensures s == space + TrimStart(s) && AllSpace(space)
    ensures TrimStart(s) != "" ==> !AllSpace(TrimStart(s)[..1])
  {
    space := "";
    if s != "" && IsSpace(s[0]) {
      var rest := TrimStartMeaning(s[1..]);
      space := [s[0]] + rest;
      assert s == [s[0]] + s[1..];
    } else if s != "" {
      assert s[0] in s[..1];
    }
  }

  lemma {:induction false} TrimEndMeaning(s: string) returns (space: string)
    ensures s == TrimEnd(s) + space && AllSpace(space)
    ensures TrimEnd(s) != "" ==> !AllSpace(TrimEnd(s)[|TrimEnd(s)| - 1..])
  {
    space := "";
    if s != "" && IsSpace(s[|s| - 1]) {
      var rest := TrimEndMeaning(s[..|s| - 1]);
      space := rest + [s[|s| - 1]];
      assert s == s[..|s| - 1] + [s[|s| - 1]];
    } else if s != "" {
      assert s[|s| - 1] in s[|s| - 1..];
    }
  }

  lemma StripMeaning(trimmed: string) returns (lead: string, trail: string)
    ensures trimmed == lead + StripSlashes(trimmed) + trail && lead in {"", "/"} && trail in {"", "/"}
    ensures lead == "" && trimmed != "" ==> trimmed[0] != '/'
    ensures var path := StripSlashes(trimmed); trail == "" && path != "" ==> path[|path| - 1] != '/'
    ensures StripSlashes(trimmed) == "" && lead == "" ==> trail == ""
  {
    lead := if trimmed != "" && trimmed[0] == '/' then "/" else "";
    var tail := trimmed[|lead|..];
    trail := if tail != "" && tail[|tail| - 1] == '/' then "/" else "";
    assert trimmed == lead + tail && tail == StripSlashes(trimmed) + trail;
    assert trimmed == lead + StripSlashes(trimmed) + trail;
  }

  /** The normalized path is the given one without surrounding space, then without one slash at the
      start if there is one, then without one at the end if there still is one. */
  lemma NormalizeMeaning(path: string)
    returns (before: string, trimmed: string, lead: string, trail: string, after: string)
    ensures path == before + trimmed + after && AllSpace(before) && AllSpace(after) && Trimmed(trimmed)
    ensures trimmed == lead + NormalizePath(path) + trail && lead in {"", "/"} && trail in {"", "/"}
    ensures lead == "" && trimmed != "" ==> trimmed[0] != '/'
    ensures var p := NormalizePath(path); trail == "" && p != "" ==> p[|p| - 1] != '/'
    ensures NormalizePath(path) == "" && lead == "" ==> trail == ""
  {
    hide TrimStart, TrimEnd, StripSlashes;
    before := TrimStartMeaning(path);
    var front := TrimStart(path);
    after := TrimEndMeaning(front);
    trimmed := TrimEnd(front);
    lead, trail := StripMeaning(trimmed);
    if trimmed != "" { assert trimmed[..1] == front[..1]; }
  }

  function KeyOf(hook: Hook): Key {
    (NormalizePath(hook.path), hook.httpMethod)
  }

  datatype ErrorName = QueryFailed | PathTaken | OtherError

  /** What goes wrong at one webhook: in the store step the insert (for a key that is not taken), the
      lookup of the existing row after a failed insert, or the refresh of an own row; or the
      `createWebhookIfNotExists` call after it. */
  datatype Fault = Fault(
    insert: Option<ErrorName>,
    lookup: Option<ErrorName>,
    update: Option<ErrorName>,
    create: Option<ErrorName>)

  datatype Activation = Init | LeadershipChange | Create | Update | Activate

  predicate Tolerant(activation: Activation) {
    activation.Init? || activation.LeadershipChange?
  }

  predicate TakenByOther(rows: Table, w: WorkflowId, key: Key) {
    key in rows && rows[key].workflow != w
  }

  predicate Owned(rows: Table, w: WorkflowId, key: Key) {
    key in rows && rows[key].workflow == w
  }

  function RowsOfOthers(rows: Table, w: WorkflowId): Table {
    map k | k in rows && rows[k].workflow != w :: rows[k]
  }

  /** The error, if any, of the store step; a taken key makes the insert fail. */
  function StoreError(rows: Table, w: WorkflowId, key: Key, fault: Fault): Option<ErrorName> {
    if key !in rows && fault.insert.None? then None
    else if fault.lookup.Some? then fault.lookup
    else if key !in rows then fault.insert
    else if rows[key].workflow != w then Some(PathTaken)
    else fault.update
  }

  predicate Registers(rows: Table, w: WorkflowId, hook: Hook, fault: Fault) {
    StoreError(rows, w, KeyOf(hook), fault).None?
  }

  /** The error, if any, of registering one webhook. */
  function HookError(rows: Table, w: WorkflowId, hook: Hook, fault: Fault): Option<ErrorName> {
    var stored := StoreError(rows, w, KeyOf(hook), fault);
    if stored.Some? then stored else fault.create
  }

  /** The table once the store step has been tried for all of `hooks`. */
  function Registered(rows: Table, w: WorkflowId, hooks: seq<Hook>, faults: seq<Fault>): Table
    requires |hooks| == |faults|
  {
    if hooks == [] then rows
    else
      var n := |hooks| - 1;
      var before := Registered(rows, w, hooks[..n], faults[..n]);
      if Registers(before, w, hooks[n], faults[n]) then before[KeyOf(hooks[n]) := Row(w, hooks[n].node)] else before
  }

  /** The store step of webhook `i` succeeds. */
  predicate StoredAt(rows: Table, w: WorkflowId, hooks: seq<Hook>, faults: seq<Fault>, i: int)
    requires |hooks| == |faults|
  {
    0 <= i < |hooks| && Registers(Registered(rows, w, hooks[..i], faults[..i]), w, hooks[i], faults[i])
  }

  function ErrorAt(rows: Table, w: WorkflowId, hooks: seq<Hook>, faults: seq<Fault>, i: nat): Option<ErrorName>
    requires |hooks| == |faults| && i < |hooks|
  {
    HookError(Registered(rows, w, hooks[..i], faults[..i]), w, hooks[i], faults[i])
  }

  predicate IsFatal(error: Option<ErrorName>, activation: Activation) {
    error.Some? && !(Tolerant(activation) && error.value == QueryFailed)
  }

  predicate FatalAt(rows: Table, w: WorkflowId, hooks: seq<Hook>, faults: seq<Fault>, activation: Activation, i: int)
    requires |hooks| == |faults|
  {
    0 <= i < |hooks| && IsFatal(ErrorAt(rows, w, hooks, faults, i), activation)
  }

  predicate NoneFatal(rows: Table, w: WorkflowId, hooks: seq<Hook>, faults: seq<Fault>, activation: Activation)
    requires |hooks| == |faults|
  {
    forall i | 0 <= i < |hooks| :: !FatalAt(rows, w, hooks, faults, activation, i)
  }

  function Selected(hooks: seq<Hook>, nodeIds: Option<set<string>>): seq<Hook> {
    if hooks == [] then []
    else
      var rest := Selected(hooks[..|hooks| - 1], nodeIds);
      var last := hooks[|hooks| - 1];
      if nodeIds.None? || last.nodeId in nodeIds.value then rest + [last] else rest
  }

  /** All webhooks, or those of the chosen nodes. */
  predicate IsChosen(hook: Hook, nodeIds: Option<set<string>>) {
    nodeIds == None || hook.nodeId in nodeIds.value
  }

  /** The selection is the chosen webhooks, each as often as it occurs and in the given order: `at` are
      the positions of the chosen ones, increasing. */
  lemma {:induction false} SelectedMeaning(hooks: seq<Hook>, nodeIds: Option<set<string>>) returns (at: seq<nat>)
    ensures |at| == |Selected(hooks, nodeIds)|
    ensures forall k | 0 <= k < |at| :: at[k] < |hooks| && Selected(hooks, nodeIds)[k] == hooks[at[k]]
    ensures forall k, m | 0 <= k < m < |at| :: at[k] < at[m]
    ensures forall i: nat | i < |hooks| :: IsChosen(hooks[i], nodeIds) <==> i in at
  {
    at := [];
    if hooks != [] {
      var n := |hooks| - 1;
      at := SelectedMeaning(hooks[..n], nodeIds);
      if IsChosen(hooks[n], nodeIds) { at := at + [n]; }
    }
  }

  lemma {:induction false} SelectedHas(hooks: seq<Hook>, nodeIds: Option<set<string>>, hook: Hook)
    ensures hook in Selected(hooks, nodeIds) <==> hook in hooks && IsChosen(hook, nodeIds)
  {
    var at := SelectedMeaning(hooks, nodeIds);
    if i: nat :| i < |hooks| && hooks[i] == hook && IsChosen(hook, nodeIds) {
      assert i in at;
    }
  }

  datatype Outcome = Nothing | Added | Threw(error: ErrorName)

  /** A database error is reported as a taken path. */
  function Renamed(error: ErrorName): ErrorName {
    if error.QueryFailed? then PathTaken else error
  }

  predicate FirstFatal(rows: Table, w: WorkflowId, hooks: seq<Hook>, faults: seq<Fault>, activation: Activation, f: int)
    requires |hooks| == |faults|
  {
    FatalAt(rows, w, hooks, faults, activation, f)
    && forall j | 0 <= j < f :: !FatalAt(rows, w, hooks, faults, activation, j)
  }

  /** What clearing the workflow's webhooks runs into before it deletes the rows. */
  datatype ClearFault = WorkflowMissing | NoActiveVersion | CannotDeregister | CannotDelete

  // ---- What registration leaves behind --------------------------------------

  /** Some webhook with this key is stored. */
  ghost predicate Stores(rows: Table, w: WorkflowId, hooks: seq<Hook>, faults: seq<Fault>, key: Key)
    requires |hooks| == |faults|
  {
    exists i :: StoredAt(rows, w, hooks, faults, i) && KeyOf(hooks[i]) == key
  }

  lemma StoresOneMore(rows: Table, w: WorkflowId, hooks: seq<Hook>, faults: seq<Fault>, key: Key)
    requires |hooks| == |faults| && hooks != []
    ensures var n := |hooks| - 1;
            Stores(rows, w, hooks, faults, key) <==>
              || Stores(rows, w, hooks[..n], faults[..n], key)
              || (StoredAt(rows, w, hooks, faults, n) && KeyOf(hooks[n]) == key)
  {
    hide KeyOf, Registers, Registered;
    var n := |hooks| - 1;
    forall i | 0 <= i < n
      ensures StoredAt(rows, w, hooks[..n], faults[..n], i) <==> StoredAt(rows, w, hooks, faults, i)
    {
      assert hooks[..n][..i] == hooks[..i] && faults[..n][..i] == faults[..i];
    }
    if i :| StoredAt(rows, w, hooks[..n], faults[..n], i) && KeyOf(hooks[..n][i]) == key {
      assert StoredAt(rows, w, hooks, faults, i);
    }
    if i :| StoredAt(rows, w, hooks, faults, i) && KeyOf(hooks[i]) == key && i < n {
      assert StoredAt(rows, w, hooks[..n], faults[..n], i) && KeyOf(hooks[..n][i]) == key;
    }
  }

  /** Registration keeps all rows of other workflows, and gives this workflow a key exactly when
      it owned it before or some webhook with that key was stored. */
  lemma {:induction false} RegisteredOwns(rows: Table, w: WorkflowId, hooks: seq<Hook>, faults: seq<Fault>, key: Key)
    requires |hooks| == |faults|
    ensures RowsOfOthers(Registered(rows, w, hooks, faults), w) == RowsOfOthers(rows, w)
    ensures Owned(Registered(rows, w, hooks, faults), w, key) <==>
      Owned(rows, w, key) || Stores(rows, w, hooks, faults, key)
  {
    if hooks != [] {
      hide KeyOf, Registers, RowsOfOthers, Stores;
      var n := |hooks| - 1;
      RegisteredOwns(rows, w, hooks[..n], faults[..n], key);
      StoresOneMore(rows, w, hooks, faults, key);
      var before := Registered(rows, w, hooks[..n], faults[..n]);
      if Registers(before, w, hooks[n], faults[n]) { StoreOne(before, w, hooks[n], faults[n], key); }
    }
  }

  lemma StoreOne(before: Table, w: WorkflowId, hook: Hook, fault: Fault, key: Key)
    requires Registers(before, w, hook, fault)
    ensures var after := before[KeyOf(hook) := Row(w, hook.node)];
            && RowsOfOthers(after, w) == RowsOfOthers(before, w)
            && (Owned(after, w, key) <==> Owned(before, w, key) || KeyOf(hook) == key)
  {}

  /** When no webhook fails fatally, every one is owned afterwards except those whose store step
      failed in the database and was tolerated. */
  lemma {:induction false} AllOwnedUnlessTolerated(rows: Table, w: WorkflowId, hooks: seq<Hook>, faults: seq<Fault>,
                                                   activation: Activation, i: nat)
    requires |hooks| == |faults| && i < |hooks| && NoneFatal(rows, w, hooks, faults, activation)
    ensures Owned(Registered(rows, w, hooks, faults), w, KeyOf(hooks[i]))
         || (Tolerant(activation) && !StoredAt(rows, w, hooks, faults, i)
             && ErrorAt(rows, w, hooks, faults, i) == Some(QueryFailed))
  {
    RegisteredOwns(rows, w, hooks, faults, KeyOf(hooks[i]));
    assert !FatalAt(rows, w, hooks, faults, activation, i);
  }

  /** What the error at webhook `i` is, given the table the earlier ones left. */
  lemma {:induction false} ErrorAtMeaning(rows: Table, w: WorkflowId, hooks: seq<Hook>, faults: seq<Fault>, i: nat)
    requires |hooks| == |faults| && i < |hooks|
    ensures var before, key, fault := Registered(rows, w, hooks[..i], faults[..i]), KeyOf(hooks[i]), faults[i];
            ErrorAt(rows, w, hooks, faults, i) ==
              if key !in before && fault.insert == None then fault.create
              else if fault.lookup != None then fault.lookup
              else if key !in before then fault.insert
              else if before[key].workflow != w then Some(PathTaken)
              else if fault.update != None then fault.update
              else fault.create
  {}

  /** A path taken by another workflow makes its webhook fail fatally, unless in init or
      leadershipChange already the lookup of its owner fails in the database. */
  lemma TakenPathIsFatalIff(rows: Table, w: WorkflowId, hooks: seq<Hook>, faults: seq<Fault>,
                            activation: Activation, i: nat)
    requires |hooks| == |faults| && i < |hooks| && TakenByOther(rows, w, KeyOf(hooks[i]))
    ensures FatalAt(rows, w, hooks, faults, activation, i) <==>
      !(Tolerant(activation) && faults[i].lookup == Some(QueryFailed))
  {
    RegisteredOwns(rows, w, hooks[..i], faults[..i], KeyOf(hooks[i]));
    var before, key := Registered(rows, w, hooks[..i], faults[..i]), KeyOf(hooks[i]);
    assert key in RowsOfOthers(rows, w);
    assert TakenByOther(before, w, key);
  }

  lemma OthersOfOthers(rows: Table, w: WorkflowId)
    ensures RowsOfOthers(RowsOfOthers(rows, w), w) == RowsOfOthers(rows, w)
  {}

  lemma {:induction false} RegisteredOneMore(rows: Table, w: WorkflowId, hooks: seq<Hook>, faults: seq<Fault>, i: nat)
    requires |hooks| == |faults| && i < |hooks|
    ensures Registered(rows, w, [], []) == rows
    ensures var before := Registered(rows, w, hooks[..i], faults[..i]);
            Registered(rows, w, hooks[..i + 1], faults[..i + 1]) ==
              if Registers(before, w, hooks[i], faults[i]) then before[KeyOf(hooks[i]) := Row(w, hooks[i].node)]
              else before
  {
    assert hooks[..i + 1][..i] == hooks[..i] && faults[..i + 1][..i] == faults[..i];
  }

  /** No error, or a database error where it is expected to happen. */
  predicate Passes(error: Option<ErrorName>, activation: Activation) {
    error == None || (error == Some(QueryFailed) && activation in {Init, LeadershipChange})
  }

  lemma NoneFatalIff(rows: Table, w: WorkflowId, hooks: seq<Hook>, faults: seq<Fault>, activation: Activation)
    requires |hooks| == |faults|
    ensures NoneFatal(rows, w, hooks, faults, activation) <==>
      forall k | 0 <= k < |faults| :: Passes(ErrorAt(rows, w, hooks, faults, k), activation)
  {
    hide ErrorAt;
    forall k | 0 <= k < |hooks|
      ensures FatalAt(rows, w, hooks, faults, activation, k) <==>
        !Passes(ErrorAt(rows, w, hooks, faults, k), activation)
    {}
  }

  /** Every chosen webhook is owned under its normalized path and method, except those whose database
      error was tolerated. */
  ghost predicate ChosenAreOwned(before: Table, after: Table, w: WorkflowId, all: seq<Hook>,
                                 nodeIds: Option<set<string>>, faults: seq<Fault>, activation: Activation)
    requires |faults| == |Selected(all, nodeIds)|
  {
    forall hook :: hook in all && IsChosen(hook, nodeIds) ==>
      || Owned(after, w, (NormalizePath(hook.path), hook.httpMethod))
      || exists k :: 0 <= k < |faults| && IsToleratedAt(before, w, Selected(all, nodeIds), faults, activation, k, hook)
  }

  predicate IsToleratedAt(rows: Table, w: WorkflowId, hooks: seq<Hook>, faults: seq<Fault>, activation: Activation,
                          k: nat, hook: Hook)
    requires |hooks| == |faults| && k < |hooks|
  {
    && hooks[k] == hook && activation in {Init, LeadershipChange}
    && ErrorAt(rows, w, hooks, faults, k) == Some(QueryFailed)
  }

  lemma {:induction false} AddedOwnsChosen(rows: Table, w: WorkflowId, all: seq<Hook>, nodeIds: Option<set<string>>,
                                           faults: seq<Fault>, activation: Activation)
    requires |faults| == |Selected(all, nodeIds)| && NoneFatal(rows, w, Selected(all, nodeIds), faults, activation)
    ensures var after := Registered(rows, w, Selected(all, nodeIds), faults);
            ChosenAreOwned(rows, after, w, all, nodeIds, faults, activation)
  {
    hide Registered, Selected, ErrorAt, NoneFatal, Owned;
    var hooks := Selected(all, nodeIds);
    forall hook | hook in all && IsChosen(hook, nodeIds)
      ensures || Owned(Registered(rows, w, hooks, faults), w, (NormalizePath(hook.path), hook.httpMethod))
              || exists k :: 0 <= k < |faults| && IsToleratedAt(rows, w, hooks, faults, activation, k, hook)
    {
      SelectedHas(all, nodeIds, hook);
      var k :| 0 <= k < |hooks| && hooks[k] == hook;
      AllOwnedUnlessTolerated(rows, w, hooks, faults, activation, k);
      if !Owned(Registered(rows, w, hooks, faults), w, KeyOf(hook)) {
        assert IsToleratedAt(rows, w, hooks, faults, activation, k, hook);
      }
    }
  }

  lemma {:induction false} NothingSelectedIff(all: seq<Hook>, nodeIds: Option<set<string>>)
    ensures Selected(all, nodeIds) == [] <==> forall hook :: hook in all ==> !IsChosen(hook, nodeIds)
  {
    forall hook
      ensures hook in Selected(all, nodeIds) <==> hook in all && IsChosen(hook, nodeIds)
    {
      SelectedHas(all, nodeIds, hook);
    }
    if Selected(all, nodeIds) != [] { assert Selected(all, nodeIds)[0] in Selected(all, nodeIds); }
  }

  lemma SameOthers(a: Table, b: Table, w: WorkflowId)
    requires RowsOfOthers(a, w) == RowsOfOthers(b, w)
    ensures forall key :: TakenByOther(a, w, key) <==> TakenByOther(b, w, key)
    ensures forall key :: TakenByOther(a, w, key) ==> key in b && b[key] == a[key]
  {
    forall key
      ensures TakenByOther(a, w, key) <==> TakenByOther(b, w, key)
      ensures TakenByOther(a, w, key) ==> key in b && b[key] == a[key]
    {
      assert key in RowsOfOthers(a, w) <==> TakenByOther(a, w, key);
      assert key in RowsOfOthers(b, w) <==> TakenByOther(b, w, key);
      if TakenByOther(a, w, key) { assert RowsOfOthers(a, w)[key] == a[key] && RowsOfOthers(b, w)[key] == b[key]; }
    }
  }

  /** A free path is taken unless the insert fails, an own row is refreshed unless that fails, the path
      of another workflow is rejected; a failing lookup decides whenever the insert failed. */
  predicate IsStoreOutcome(rows: Table, w: WorkflowId, hook: Hook, fault: Fault, error: Option<ErrorName>) {
    var key := (NormalizePath(hook.path), hook.httpMethod);
    && (key !in rows && fault.insert == None ==> error == None)
    && ((key in rows || fault.insert != None) && fault.lookup != None ==> error == fault.lookup)
    && (fault.lookup == None ==>
          && (key !in rows ==> error == fault.insert)
          && (key in rows && rows[key].workflow != w ==> error == Some(PathTaken))
          && (key in rows && rows[key].workflow == w ==> error == fault.update))
  }

  predicate IsCleared(before: Table, after: Table, w: WorkflowId) {
    && (forall key :: key in before ==> (key in after <==> before[key].workflow != w))
    && (forall key :: key in after ==> key in before && after[key] == before[key])
  }

  class WebhookRegistration {
    var rows: Table

    constructor ()
      ensures rows == map[]
    {
      rows := map[];
    }

    /** Inserts a row, refreshes the workflow's own one, or rejects a path of another workflow. */
    method StoreWebhook(w: WorkflowId, hook: Hook, fault: Fault) returns (error: Option<ErrorName>)
      modifies this
      ensures error == StoreError(old(rows), w, KeyOf(hook), fault)
      ensures IsStoreOutcome(old(rows), w, hook, fault, error)
      ensures rows == if error.Some? then old(rows) else old(rows)[KeyOf(hook) := Row(w, hook.node)]
    {
      var key := KeyOf(hook);
      if key !in rows && fault.insert.None? {
        rows := rows[key := Row(w, hook.node)];
        return None;
      }
      if fault.lookup.Some? {
        return fault.lookup;
      }
      if key !in rows {
        return fault.insert;
      }
      if rows[key].workflow != w {
        return Some(PathTaken);
      }
      if fault.update.Some? {
        return fault.update;
      }
      rows := rows[key := Row(w, hook.node)];
      return None;
    }

    /** Deregisters and deletes all rows of the workflow, unless a step of it throws. */
    method ClearWebhooks(w: WorkflowId, fault: Option<ClearFault>) returns (thrown: Option<ClearFault>)
      modifies this
      ensures thrown == fault
      ensures rows == if thrown.Some? then old(rows) else RowsOfOthers(old(rows), w)
      ensures thrown.None? ==> IsCleared(old(rows), rows, w)
    {
      if fault.Some? {
        return fault;
      }
      rows := map k | k in rows && rows[k].workflow != w :: rows[k];
      return None;
    }

    /** `clearFault` and `saveFault` say what clearing and the final save of the static data run into.
        A webhook step that throws is rolled back by clearing; a failing save is not. */
    method AddWebhooks(w: WorkflowId, all: seq<Hook>, nodeIds: Option<set<string>>, activation: Activation,
                       faults: seq<Fault>, clearFault: Option<ClearFault>, saveFault: Option<ErrorName>)
      returns (outcome: Outcome)
      requires |faults| == |Selected(all, nodeIds)|
      modifies this
      ensures RowsOfOthers(rows, w) == RowsOfOthers(old(rows), w)
      ensures outcome.Nothing? <==> Selected(all, nodeIds) == []
      ensures outcome.Nothing? ==> rows == old(rows)
      ensures outcome.Nothing? <==> forall hook :: hook in all ==> !IsChosen(hook, nodeIds)
      ensures outcome.Added? <==>
        && Selected(all, nodeIds) != [] && saveFault.None?
        && forall k | 0 <= k < |faults| ::
             Passes(ErrorAt(old(rows), w, Selected(all, nodeIds), faults, k), activation)
      ensures outcome.Added? ==> ChosenAreOwned(old(rows), rows, w, all, nodeIds, faults, activation)
      ensures forall key :: TakenByOther(old(rows), w, key) ==> key in rows && rows[key] == old(rows)[key]
      ensures forall key :: TakenByOther(rows, w, key) ==> TakenByOther(old(rows), w, key)
      ensures outcome.Added? ==>
        && saveFault.None? && rows == Registered(old(rows), w, Selected(all, nodeIds), faults)
        && NoneFatal(old(rows), w, Selected(all, nodeIds), faults, activation)
      ensures outcome.Threw? ==>
        || (exists f :: FirstFatal(old(rows), w, Selected(all, nodeIds), faults, activation, f)
              && (var error := ErrorAt(old(rows), w, Selected(all, nodeIds), faults, f).value;
                  outcome.error == if error == QueryFailed then PathTaken else error)
              && rows == if clearFault.Some?
                         then Registered(old(rows), w, Selected(all, nodeIds)[..f + 1], faults[..f + 1])
                         else RowsOfOthers(old(rows), w))
        || (saveFault == Some(outcome.error)
              && NoneFatal(old(rows), w, Selected(all, nodeIds), faults, activation)
              && rows == Registered(old(rows), w, Selected(all, nodeIds), faults))
    {
      hide KeyOf, RowsOfOthers, Registered, Selected, IsChosen, ChosenAreOwned, IsStoreOutcome, IsCleared, StoreError;
      var hooks := Selected(all, nodeIds);
      NothingSelectedIff(all, nodeIds);
      if |hooks| == 0 {
        SameOthers(rows, rows, w);
        return Nothing;
      }
      ghost var before := rows;
      NoneFatalIff(before, w, hooks, faults, activation);
      RegisteredOneMore(before, w, hooks, faults, 0);
      assert hooks[..0] == [] && faults[..0] == [];
      for i := 0 to |hooks|
        invariant rows == Registered(before, w, hooks[..i], faults[..i])
        invariant RowsOfOthers(rows, w) == RowsOfOthers(before, w)
        invariant forall j | 0 <= j < i :: !FatalAt(before, w, hooks, faults, activation, j)
      {
        RegisteredOneMore(before, w, hooks, faults, i);
        RegisteredOwns(before, w, hooks[..i + 1], faults[..i + 1], KeyOf(hooks[i]));
        var error := StoreWebhook(w, hooks[i], faults[i]);
        if error.None? {
          error := faults[i].create;
        }
        if IsFatal(error, activation) {
          assert FirstFatal(before, w, hooks, faults, activation, i);
          assert !NoneFatal(before, w, hooks, faults, activation);
          var _ := ClearWebhooks(w, clearFault);
          OthersOfOthers(before, w);
          SameOthers(before, rows, w);
          return Threw(Renamed(error.value));
        }
      }
      assert hooks[..|hooks|] == hooks && faults[..|hooks|] == faults;
      SameOthers(before, rows, w);
      AddedOwnsChosen(before, w, all, nodeIds, faults, activation);
      outcome := if saveFault.Some? then Threw(saveFault.value) else Added;
    }
  }

  /** Clearing leaves no row of the workflow. A throw without it (clearing failed, or the static
      data could not be saved) leaves none exactly when there was none and none was stored. */
  lemma {:induction false} NothingIsLeftIff(rows: Table, w: WorkflowId, hooks: seq<Hook>, faults: seq<Fault>)
    requires |hooks| == |faults|
    ensures (forall key :: !Owned(RowsOfOthers(rows, w), w, key))
    ensures (forall key :: !Owned(Registered(rows, w, hooks, faults), w, key)) <==>
      && (forall key :: !Owned(rows, w, key))
      && (forall i :: !StoredAt(rows, w, hooks, faults, i))
  {
    var after := Registered(rows, w, hooks, faults);
    if forall key :: !Owned(after, w, key) {
      forall i
        ensures !StoredAt(rows, w, hooks, faults, i)
      {
        if 0 <= i < |hooks| {
          RegisteredOwns(rows, w, hooks, faults, KeyOf(hooks[i]));
          assert StoredAt(rows, w, hooks, faults, i) ==> Stores(rows, w, hooks, faults, KeyOf(hooks[i]));
          assert !Owned(after, w, KeyOf(hooks[i]));
        }
      }
      forall key
        ensures !Owned(rows, w, key)
      {
        RegisteredOwns(rows, w, hooks, faults, key);
        assert !Owned(after, w, key);
      }
    } else {
      var key :| Owned(after, w, key);
      RegisteredOwns(rows, w, hooks, faults, key);
    }
  }
}
