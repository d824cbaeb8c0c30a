/** The browser side of the action list (web/src/Tree.js): binding each affect to the
    action it names, and choosing the action shown in the detail pane. The JSON the
    page receives is a graph of objects; the affects are the only ones this code
    changes. */
module Tree {
  import opened Wrappers
  import Seqs

  /** A JSON id as the page reads it: null or absent, or a number. */
  datatype Id = Null | Num(n: int)

  /** JavaScript truthiness of an id: null, absent and 0 are falsy. */
  predicate Truthy(id: Id) {
    id.Num? && id.n != 0
  }

  /** An email as the page receives it; only the lengths of its lists matter here. */
  datatype Email = Email(name: string, documents: seq<string>, templates: seq<string>, recipients: seq<string>)

  /** An action of a group. Its lists are never reassigned by this code. */
  class Action {
    const actionId: Id
    const name: string
    const startEmails: seq<Email>
    const completeEmails: seq<Email>
    const startAffects: seq<Affect>
    const completeAffects: seq<Affect>

    constructor(actionId: Id, name: string, startEmails: seq<Email>, completeEmails: seq<Email>,
                startAffects: seq<Affect>, completeAffects: seq<Affect>)
      ensures this.actionId == actionId && this.name == name
      ensures this.startEmails == startEmails && this.completeEmails == completeEmails
      ensures this.startAffects == startAffects && this.completeAffects == completeAffects
    {
      this.actionId := actionId;
      this.name := name;
      this.startEmails := startEmails;
      this.completeEmails := completeEmails;
      this.startAffects := startAffects;
      this.completeAffects := completeAffects;
    }
  }

  /** An affect: the (group, action) ids it names, and the `action` field the binding
      assigns. `None` stands for JavaScript's `undefined`. */
  class Affect {
    const groupId: Id
    const actionId: Id
    var action: Option<Action>

    constructor(groupId: Id, actionId: Id)
      ensures this.groupId == groupId && this.actionId == actionId && action == None
    {
      this.groupId := groupId;
      this.actionId := actionId;
      action := None;
    }
  }

  datatype Group = Group(id: Id, name: string, actions: seq<Action>)

  /** The action list object the page holds. */
  class ActionList {
    const groups: seq<Group>

    constructor(groups: seq<Group>)
      ensures this.groups == groups
    {
      this.groups := groups;
    }
  }

  // ---------------------------------------------------------------------------
  // the lookup tables
  // ---------------------------------------------------------------------------

  type ById = map<Id, Action>
  type Lookup = map<Id, ById>

  /** `actionById` after `a.action_id` has been assigned for each action in turn. */
  function ActionsById(actions: seq<Action>): ById
  {
    if actions == [] then map[]
    else
      var n := |actions| - 1;
      ActionsById(actions[..n])[actions[n].actionId := actions[n]]
  }

  /** `actionLookup` after each group in turn has stored its own `actionById`. */
  function LookupOf(groups: seq<Group>): Lookup
  {
    if groups == [] then map[]
    else
      var n := |groups| - 1;
      LookupOf(groups[..n])[groups[n].id := ActionsById(groups[n].actions)]
  }

  /** The table holds an action for every id some action carries, and for each the last
      action carrying it: a later duplicate overwrites an earlier one. */
  lemma {:induction false} ActionsByIdLastWins(actions: seq<Action>)
    ensures forall a :: a in ActionsById(actions) <==> exists j :: 0 <= j < |actions| && actions[j].actionId == a
    ensures forall a :: a in ActionsById(actions) ==>
              exists j :: 0 <= j < |actions| && ActionsById(actions)[a] == actions[j] && actions[j].actionId == a &&
                          forall k :: j < k < |actions| ==> actions[k].actionId != a
  {
    if actions != [] {
      var n := |actions| - 1;
      var front := actions[..n];
      ActionsByIdLastWins(front);
      forall j | 0 <= j < n ensures front[j] == actions[j] {
      }
    }
  }

  /** The lookup has a table for every group id some group carries, and no other. */
  lemma {:induction false} LookupKeys(groups: seq<Group>)
    ensures forall g :: g in LookupOf(groups) <==> exists i :: 0 <= i < |groups| && groups[i].id == g
  {
    if groups != [] {
      var n := |groups| - 1;
      LookupKeys(groups[..n]);
      forall i | 0 <= i < n ensures groups[..n][i] == groups[i] {
      }
    }
  }

  /** The claim of LookupLastWins for one group id of the lookup. */
  ghost predicate LastGroupFor(groups: seq<Group>, l: Lookup, g: Id)
    requires g in l
  {
    exists i :: 0 <= i < |groups| && l[g] == ActionsById(groups[i].actions) && groups[i].id == g &&
                forall k :: i < k < |groups| ==> groups[k].id != g
  }

  /** A group id other than the last group's keeps the witness it had before that group. */
  lemma LastGroupForOlder(groups: seq<Group>, g: Id, i: nat)
    requires groups != [] && g in LookupOf(groups[..|groups| - 1]) && g != groups[|groups| - 1].id
    requires i < |groups| - 1 && LookupOf(groups[..|groups| - 1])[g] == ActionsById(groups[i].actions) && groups[i].id == g
    requires forall k :: i < k < |groups| - 1 ==> groups[k].id != g
    ensures g in LookupOf(groups) && LastGroupFor(groups, LookupOf(groups), g)
  {
    var n := |groups| - 1;
    var l := LookupOf(groups);
    assert l[g] == LookupOf(groups[..n])[g];
    forall k | i < k < |groups| ensures groups[k].id != g {
    }
  }

  /** Each group id's table is that of the last group carrying the id: a later group with
      the same id replaces the earlier one's whole table. */
  lemma {:induction false} LookupLastWins(groups: seq<Group>)
    ensures forall g :: g in LookupOf(groups) ==> LastGroupFor(groups, LookupOf(groups), g)
  {
    if groups != [] {
      var n := |groups| - 1;
      var front := groups[..n];
      LookupLastWins(front);
      var last := groups[n];
      var l := LookupOf(groups);
      forall g | g in l ensures LastGroupFor(groups, l, g) {
        if g == last.id {
          assert l[g] == ActionsById(groups[n].actions);
        } else {
          assert g in LookupOf(front);
          var i :| 0 <= i < n && LookupOf(front)[g] == ActionsById(front[i].actions) && front[i].id == g &&
                   forall k :: i < k < n ==> front[k].id != g;
          assert front[i] == groups[i];
          forall k | i < k < n ensures groups[k].id != g {
            assert front[k] == groups[k];
          }
          LastGroupForOlder(groups, g, i);
        }
      }
    }
  }

  /** The first `forEach` of attachActionsToAffects, loop by loop. */
  method BuildLookup(groups: seq<Group>) returns (lookup: Lookup)
    ensures lookup == LookupOf(groups)
  {
    lookup := map[];
    for i := 0 to |groups|
      invariant lookup == LookupOf(groups[..i])
    {
      var actions := groups[i].actions;
      var byId: ById := map[];
      for j := 0 to |actions|
        invariant byId == ActionsById(actions[..j])
      {
        assert actions[..j + 1][..j] == actions[..j];
        byId := byId[actions[j].actionId := actions[j]];
      }
      assert actions[..|actions|] == actions;
      assert groups[..i + 1][..i] == groups[..i];
      lookup := lookup[groups[i].id := byId];
    }
    assert groups[..|groups|] == groups;
  }

  // ---------------------------------------------------------------------------
  // attach
  // ---------------------------------------------------------------------------

  /** The affect names an action: both of its ids are truthy. */
  predicate Bound(x: Affect) {
    Truthy(x.groupId) && Truthy(x.actionId)
  }

  /** `actionLookup[item.group_id]` is `undefined` for a group id no group carries, and
      reading an action id from it raises a TypeError. */
  predicate Fails(lookup: Lookup, x: Affect) {
    Bound(x) && x.groupId !in lookup
  }

  /** The value `item.action` is given: the action with that id in that group, or
      `undefined` when the group has none. */
  function Target(lookup: Lookup, x: Affect): (r: Option<Action>)
    requires !Fails(lookup, x) && Bound(x)
    ensures r.Some? <==> x.actionId in lookup[x.groupId]
    ensures r.Some? ==> r.value == lookup[x.groupId][x.actionId]
  {
    if x.actionId in lookup[x.groupId] then Some(lookup[x.groupId][x.actionId]) else None
  }

  datatype AttachError = UndefinedGroup(groupId: Id)

  /** The index of the first affect that raises, or the length when none does. */
  function FirstFailure(lookup: Lookup, items: seq<Affect>): (k: nat)
    ensures k <= |items|
    ensures forall m :: 0 <= m < k ==> !Fails(lookup, items[m])
    ensures k < |items| ==> Fails(lookup, items[k])
  {
    if items == [] then 0
    else if Fails(lookup, items[0]) then 0
    else 1 + FirstFailure(lookup, items[1..])
  }

  /** Any index meeting the characterisation is the first failure. */
  lemma FirstFailureIs(lookup: Lookup, items: seq<Affect>, k: nat)
    requires k <= |items|
    requires forall m :: 0 <= m < k ==> !Fails(lookup, items[m])
    requires k < |items| ==> Fails(lookup, items[k])
    ensures FirstFailure(lookup, items) == k
  {
  }

  /** The `attach` helper: each affect with truthy ids, up to the first that raises, gets
      its target; every other affect keeps its `action`. */
  method Attach(lookup: Lookup, items: seq<Affect>) returns (r: Result<(), AttachError>)
    modifies set x | x in items
    ensures var k := FirstFailure(lookup, items);
            r == if k == |items| then Ok(()) else Err(UndefinedGroup(items[k].groupId))
    ensures var k := FirstFailure(lookup, items);
            forall x :: x in items[..k] && Bound(x) ==> x.action == Target(lookup, x)
    ensures var k := FirstFailure(lookup, items);
            forall x :: x in items && !(x in items[..k] && Bound(x)) ==> x.action == old(x.action)
  {
    var i := 0;
    while i < |items|
      invariant 0 <= i <= |items|
      invariant forall m :: 0 <= m < i ==> !Fails(lookup, items[m])
      invariant forall x :: x in items[..i] && Bound(x) ==> x.action == Target(lookup, x)
      invariant forall x :: x in items && !(x in items[..i] && Bound(x)) ==> x.action == old(x.action)
    {
      var item := items[i];
      assert items[..i + 1] == items[..i] + [item];
      if Bound(item) {
        if item.groupId !in lookup {
          FirstFailureIs(lookup, items, i);
          return Err(UndefinedGroup(item.groupId));
        }
        var byId := lookup[item.groupId];
        item.action := if item.actionId in byId then Some(byId[item.actionId]) else None;
      }
      i := i + 1;
    }
    FirstFailureIs(lookup, items, i);
    assert items[..i] == items;
    return Ok(());
  }

  // ---------------------------------------------------------------------------
  // attachActionsToAffects
  // ---------------------------------------------------------------------------

  /** The affects `attach` visits for one action: start, then complete. */
  function ActionAffects(a: Action): seq<Affect> {
    a.startAffects + a.completeAffects
  }

  function ActionsAffects(actions: seq<Action>): seq<Affect> {
    if actions == [] then []
    else
      var n := |actions| - 1;
      ActionsAffects(actions[..n]) + ActionAffects(actions[n])
  }

  /** Every affect, in the order the second `forEach` visits them. */
  function AllAffects(groups: seq<Group>): seq<Affect> {
    if groups == [] then []
    else
      var n := |groups| - 1;
      AllAffects(groups[..n]) + ActionsAffects(groups[n].actions)
  }

  predicate IsPrefix(p: seq<Affect>, s: seq<Affect>) {
    |p| <= |s| && s[..|p|] == p
  }

  lemma IsPrefixTrans(p: seq<Affect>, q: seq<Affect>, s: seq<Affect>)
    requires IsPrefix(p, q) && IsPrefix(q, s)
    ensures IsPrefix(p, s)
  {
    assert s[..|p|] == s[..|q|][..|p|];
  }

  lemma IsPrefixAfter(c: seq<Affect>, p: seq<Affect>, s: seq<Affect>)
    requires IsPrefix(p, s)
    ensures IsPrefix(c + p, c + s)
  {
    assert (c + s)[..|c + p|] == c + s[..|p|];
  }

  lemma {:induction false} ActionsAffectsPrefix(actions: seq<Action>, j: nat)
    requires j <= |actions|
    ensures IsPrefix(ActionsAffects(actions[..j]), ActionsAffects(actions))
    decreases |actions| - j
  {
    if j < |actions| {
      ActionsAffectsPrefix(actions, j + 1);
      assert actions[..j + 1][..j] == actions[..j];
      IsPrefixTrans(ActionsAffects(actions[..j]), ActionsAffects(actions[..j + 1]), ActionsAffects(actions));
    } else {
      assert actions[..j] == actions;
    }
  }

  lemma {:induction false} AllAffectsPrefix(groups: seq<Group>, i: nat)
    requires i <= |groups|
    ensures IsPrefix(AllAffects(groups[..i]), AllAffects(groups))
    decreases |groups| - i
  {
    if i < |groups| {
      AllAffectsPrefix(groups, i + 1);
      assert groups[..i + 1][..i] == groups[..i];
      IsPrefixTrans(AllAffects(groups[..i]), AllAffects(groups[..i + 1]), AllAffects(groups));
    } else {
      assert groups[..i] == groups;
    }
  }

  /** The state of the affects once `done` has been visited without a raise: the bound ones
      hold their targets, every other affect of `all` still holds its original value. */
  ghost predicate Progress(lookup: Lookup, all: seq<Affect>, orig: map<Affect, Option<Action>>, done: seq<Affect>)
    reads set x | x in all
    reads set x | x in done
  {
    (forall m :: 0 <= m < |done| ==> !Fails(lookup, done[m])) &&
    (forall x :: x in done && Bound(x) ==> x.action == Target(lookup, x)) &&
    (forall x :: x in all && !(x in done && Bound(x)) ==> x in orig && x.action == orig[x])
  }

  /** One call of `attach` inside the traversal: the visited prefix grows by the affects
      up to the first that raises. */
  method AttachAt(lookup: Lookup, items: seq<Affect>, ghost all: seq<Affect>, ghost orig: map<Affect, Option<Action>>,
                  ghost done: seq<Affect>) returns (r: Result<(), AttachError>, ghost done': seq<Affect>)
    requires IsPrefix(done + items, all)
    requires Progress(lookup, all, orig, done)
    modifies set x | x in items
    ensures Progress(lookup, all, orig, done')
    ensures r.Ok? ==> done' == done + items
    ensures r.Err? ==> IsPrefix(done', all) && FirstFailure(lookup, all) == |done'| < |all| &&
                       r.error == UndefinedGroup(all[|done'|].groupId)
  {
    r := Attach(lookup, items);
    var k := FirstFailure(lookup, items);
    done' := done + items[..k];
    forall m | 0 <= m < |done'| ensures !Fails(lookup, done'[m]) {
      if m >= |done| {
        assert done'[m] == items[m - |done|];
      }
    }
    forall x | x in done' && Bound(x) ensures x.action == Target(lookup, x) {
      if x !in items[..k] {
        assert x in done;
        if x in items {
          assert x.action == old(x.action);
        }
      }
    }
    if k < |items| {
      assert all[..|done| + |items|] == done + items;
      forall m | 0 <= m < |done| + k ensures !Fails(lookup, all[m]) {
        assert all[m] == (done + items)[m];
        if m >= |done| {
          assert all[m] == items[m - |done|];
        }
      }
      assert all[|done| + k] == items[k];
      FirstFailureIs(lookup, all, |done| + k);
      assert all[..|done| + k] == (done + items)[..|done| + k] == done + items[..k];
    } else {
      assert items[..k] == items;
    }
  }

  lemma ActionsAffectsNext(actions: seq<Action>, j: nat)
    requires j < |actions|
    ensures ActionsAffects(actions[..j + 1]) == ActionsAffects(actions[..j]) + ActionAffects(actions[j])
  {
    assert actions[..j + 1][..j] == actions[..j];
  }

  /** Both `attach` calls for one action, start affects then complete affects. On a raise,
      the visited prefix ends just before the affect that raised. */
  method AttachAction(lookup: Lookup, action: Action, ghost all: seq<Affect>, ghost orig: map<Affect, Option<Action>>,
                      ghost done: seq<Affect>) returns (r: Result<(), AttachError>, ghost done': seq<Affect>)
    requires IsPrefix(done + ActionAffects(action), all)
    requires Progress(lookup, all, orig, done)
    modifies set x | x in ActionAffects(action)
    ensures Progress(lookup, all, orig, done')
    ensures r.Ok? ==> done' == done + ActionAffects(action)
    ensures r.Err? ==> IsPrefix(done', all) && FirstFailure(lookup, all) == |done'| < |all| &&
                       r.error == UndefinedGroup(all[|done'|].groupId)
  {
    var start := action.startAffects;
    var complete := action.completeAffects;
    assert done + ActionAffects(action) == done + start + complete;
    IsPrefixTrans(done + start, done + ActionAffects(action), all);
    ghost var mid;
    r, mid := AttachAt(lookup, start, all, orig, done);
    if r.Err? {
      return r, mid;
    }
    r, done' := AttachAt(lookup, complete, all, orig, mid);
  }

  /** The inner `forEach`, over the actions of one group in order. */
  method AttachGroup(lookup: Lookup, actions: seq<Action>, ghost all: seq<Affect>, ghost orig: map<Affect, Option<Action>>,
                     ghost done: seq<Affect>) returns (r: Result<(), AttachError>, ghost done': seq<Affect>)
    requires IsPrefix(done + ActionsAffects(actions), all)
    requires Progress(lookup, all, orig, done)
    modifies set x | x in ActionsAffects(actions)
    ensures Progress(lookup, all, orig, done')
    ensures r.Ok? ==> done' == done + ActionsAffects(actions)
    ensures r.Err? ==> IsPrefix(done', all) && FirstFailure(lookup, all) == |done'| < |all| &&
                       r.error == UndefinedGroup(all[|done'|].groupId)
  {
    done' := done;
    for j := 0 to |actions|
      invariant done' == done + ActionsAffects(actions[..j])
      invariant Progress(lookup, all, orig, done')
    {
      ActionsAffectsNext(actions, j);
      ActionsAffectsPrefix(actions, j + 1);
      ghost var upTo := ActionsAffects(actions[..j + 1]);
      IsPrefixAfter(done, upTo, ActionsAffects(actions));
      IsPrefixTrans(done + upTo, done + ActionsAffects(actions), all);
      Seqs.Regroup(done, ActionsAffects(actions[..j]), ActionAffects(actions[j]));
      forall x | x in ActionAffects(actions[j]) ensures x in ActionsAffects(actions) {
        assert x in upTo;
      }
      r, done' := AttachAction(lookup, actions[j], all, orig, done');
      if r.Err? {
        return;
      }
    }
    assert actions[..|actions|] == actions;
    r := Ok(());
  }

  /** attachActionsToAffects: binds every affect of every action of every group, in order.
      Up to the first affect whose group id no group carries (where the page raises), each
      affect with truthy ids gets the action its ids name in the lookup; every other affect
      keeps its `action`; the same list object comes back. */
  method AttachActionsToAffects(list: ActionList) returns (r: Result<ActionList, AttachError>)
    modifies set x | x in AllAffects(list.groups)
    ensures var all := AllAffects(list.groups);
            var lookup := LookupOf(list.groups);
            var k := FirstFailure(lookup, all);
            r == (if k == |all| then Ok(list) else Err(UndefinedGroup(all[k].groupId)))
    ensures var all := AllAffects(list.groups);
            var lookup := LookupOf(list.groups);
            var k := FirstFailure(lookup, all);
            forall x :: x in all[..k] && Bound(x) ==> x.action == Target(lookup, x)
    ensures var all := AllAffects(list.groups);
            var k := FirstFailure(LookupOf(list.groups), all);
            forall x :: old(allocated(x)) && x in all && !(x in all[..k] && Bound(x)) ==> x.action == old(x.action)
  {
    var groups := list.groups;
    var lookup := BuildLookup(groups);
    ghost var all := AllAffects(groups);
    ghost var orig: map<Affect, Option<Action>> := map x | x in all :: x.action;
    ghost var done: seq<Affect> := [];
    for i := 0 to |groups|
      invariant done == AllAffects(groups[..i])
      invariant Progress(lookup, all, orig, done)
      invariant forall x :: x in all && old(allocated(x)) ==> x in orig && orig[x] == old(x.action)
    {
      var actions := groups[i].actions;
      assert groups[..i + 1][..i] == groups[..i];
      AllAffectsPrefix(groups, i + 1);
      forall x | x in ActionsAffects(actions) ensures x in all {
        assert x in AllAffects(groups[..i + 1]);
      }
      var a;
      a, done := AttachGroup(lookup, actions, all, orig, done);
      if a.Err? {
        assert all[..FirstFailure(lookup, all)] == done;
        return Err(a.error);
      }
    }
    assert groups[..|groups|] == groups;
    FirstFailureIs(lookup, all, |all|);
    return Ok(list);
  }

  // ---------------------------------------------------------------------------
  // the detail pane
  // ---------------------------------------------------------------------------

  /** hasEverything: the email has documents, templates and recipients. */
  predicate HasEverything(e: Email) {
    |e.documents| > 0 && |e.templates| > 0 && |e.recipients| > 0
  }

  /** Some start email or some complete email of the action has everything. */
  predicate Detailed(a: Action) {
    (exists e :: e in a.startEmails && HasEverything(e)) || (exists e :: e in a.completeEmails && HasEverything(e))
  }

  /** Position (i, j) is a real action, and no action before it, in group-then-action
      order, is detailed. */
  predicate NoneBefore(groups: seq<Group>, i: int, j: int)
    requires 0 <= i <= |groups|
  {
    (forall i', j' :: 0 <= i' < i && 0 <= j' < |groups[i'].actions| ==> !Detailed(groups[i'].actions[j'])) &&
    (i < |groups| ==> forall j' :: 0 <= j' < j && j' < |groups[i].actions| ==> !Detailed(groups[i].actions[j']))
  }

  /** Action j of group i is the first detailed one. */
  predicate FirstDetailed(groups: seq<Group>, i: int, j: int) {
    0 <= i < |groups| && 0 <= j < |groups[i].actions| && Detailed(groups[i].actions[j]) && NoneBefore(groups, i, j)
  }

  /** The detail pane's action: the first action, groups in order and actions in order
      within each, that sends an email with everything; `None` (the page's null) exactly
      when no action does. */
  method DetailAction(list: ActionList) returns (r: Option<Action>)
    ensures r.None? <==> NoneBefore(list.groups, |list.groups|, 0)
    ensures r.Some? ==> exists i, j :: FirstDetailed(list.groups, i, j) && r.value == list.groups[i].actions[j]
  {
    var groups := list.groups;
    r := None;
    ghost var fi, fj := 0, 0;
    var i := 0;
    while i < |groups| && r.None?
      invariant 0 <= i <= |groups|
      invariant r.None? ==> NoneBefore(groups, i, 0)
      invariant r.Some? ==> FirstDetailed(groups, fi, fj) && r.value == groups[fi].actions[fj]
    {
      var actions := groups[i].actions;
      var j := 0;
      while j < |actions| && r.None?
        invariant 0 <= j <= |actions|
        invariant r.None? ==> NoneBefore(groups, i, j)
        invariant r.Some? ==> FirstDetailed(groups, fi, fj) && r.value == groups[fi].actions[fj]
      {
        if Detailed(actions[j]) {
          r := Some(actions[j]);
          fi, fj := i, j;
        }
        j := j + 1;
      }
      i := i + 1;
    }
    if r.Some? {
      assert !NoneBefore(groups, |groups|, 0) by {
        assert Detailed(groups[fi].actions[fj]);
      }
    }
  }
}
