/** The connected object graph graph.py builds from the loaded tables: actions in
    groups, the affects their tasks cause, the emails they send, and the triggers that
    external events fire. */
module Graph {
  import opened Wrappers
  import opened Seqs
  import Deps
  import opened ReswareModel

  // ---------------------------------------------------------------------------
  // node names
  // ---------------------------------------------------------------------------

  /** _node_name: 'N' in front of the space-joined components, escaped. */
  function NodeNameOf(parts: seq<string>): string {
    Deps.EscapeName("N" + Join(" ", parts))
  }

  /** A node name is a bare dot identifier: it starts with 'N' (never with a digit),
      holds none of the escaped characters, and escaping it again changes nothing, so a
      Vertex given it as its name keeps it. */
  lemma NodeNameIsIdentifier(parts: seq<string>)
    ensures |NodeNameOf(parts)| >= 1 && NodeNameOf(parts)[0] == 'N'
    ensures Deps.Clean(NodeNameOf(parts))
    ensures Deps.EscapeName(NodeNameOf(parts)) == NodeNameOf(parts)
  {
    var rest := Join(" ", parts);
    Deps.EscapeNameKeepsOthers("N", rest, 'N');
    Deps.EscapeNameClean("N" + rest);
    Deps.EscapeNameIdempotent("N" + rest);
  }

  // ---------------------------------------------------------------------------
  // the object graph
  // ---------------------------------------------------------------------------

  /** An (action list group, action) pair: the key of an action in the context. */
  type ActionKey = (int, int)

  /** An affect on another action's task: moving its due date by an offset, or marking
      it done. The target's action id may be NULL. */
  datatype Affect =
    | OffsetActionAffect(groupId: int, actionId: Option<int>, task: Option<Task>, offset: string)
    | CompleteActionAffect(groupId: int, actionId: Option<int>, task: Option<Task>)
  {
    /** The `type` field. */
    function Type(): string {
      if OffsetActionAffect? then "offset" else "complete"
    }
  }

  /** Something outside ResWare that can trigger an affect. */
  datatype ExternalAction =
    | ExternalAction(id: int, name: string)
    | DocumentAdded(id: int, name: string, documentTypeId: int, documentName: string)
    | ActionEventReceived(id: int, name: string, actionEventId: int, actionEventName: string)
  {
    function Label(): string {
      match this
      case ExternalAction(_, name) => name
      case DocumentAdded(_, _, _, doc) => doc + " Added"
      case ActionEventReceived(_, _, _, ae) => "Event: " + ae
    }

    function NodeName(): string {
      match this
      case ExternalAction(id, name) => NodeNameOf([name, IntToString(id)])
      case DocumentAdded(id, _, docId, doc) => NodeNameOf([doc, IntToString(id), IntToString(docId)])
      case ActionEventReceived(id, _, aeId, ae) => NodeNameOf([ae, IntToString(id), IntToString(aeId)])
    }

    function DotAttrs(): Deps.Attrs {
      match this
      case ExternalAction(_, _) => [("fillcolor", "#a6cee3"), ("style", "filled")]
      case DocumentAdded(_, _, _, _) => [("fillcolor", "#b2df8a"), ("style", "filled")]
      case ActionEventReceived(_, _, _, _) => [("fillcolor", "#1f78b4"), ("style", "filled"), ("fontcolor", "white")]
    }
  }

  datatype Trigger = Trigger(affect: Affect, externalAction: ExternalAction)

  /** An email template sent when a task is done. The fields hold what the builder
      passes positionally (see EmailFor). */
  datatype Email = Email(actionId: int, groupId: int, name: string, task: Task) {
    function NodeName(): string {
      NodeNameOf([name, IntToString(groupId), IntToString(actionId)])
    }

    function DotAttrs(): Deps.Attrs {
      [("fillcolor", "#33a02c"), ("style", "filled"), ("fontcolor", "white")]
    }
  }

  /** An action in a group. Two actions are the same action when their keys are equal:
      every other field is excluded from comparison and hashing. */
  datatype Action = Action(
    actionId: int, groupId: int, name: string, displayName: string, description: Option<string>,
    hidden: bool, dynamic: bool,
    startEmails: seq<Email>, completeEmails: seq<Email>,
    startAffects: seq<Affect>, completeAffects: seq<Affect>)
  {
    function Key(): ActionKey {
      (groupId, actionId)
    }

    function NodeName(): string {
      NodeNameOf([name, IntToString(groupId), IntToString(actionId)])
    }

    /** start_affects + complete_affects. */
    function Affects(): seq<Affect> {
      startAffects + completeAffects
    }

    /** start_emails + complete_emails. */
    function Emails(): seq<Email> {
      startEmails + completeEmails
    }
  }

  datatype Group = Group(id: int, name: string, optional: bool, actions: seq<Action>, triggers: seq<Trigger>)

  datatype ActionList = ActionList(name: string, groups: seq<Group>)

  /** The key a failed lookup was given. */
  datatype LookupKey = IdKey(id: int) | PairKey(groupId: int, actionId: Option<int>)

  /** A KeyError from a plain dict, or an AttributeError. */
  datatype BuildError = KeyMissing(table: string, key: LookupKey) | NoAttribute(name: string)

  /** A read of a single-record table, which raises KeyError for an unknown id. */
  function Find<V>(m: map<int, V>, table: string, id: int): (r: Result<V, BuildError>)
    ensures r.Ok? <==> id in m
    ensures r.Ok? ==> r.value == m[id]
    ensures r.Err? ==> r.error == KeyMissing(table, IdKey(id))
  {
    if id in m then Ok(m[id]) else Err(KeyMissing(table, IdKey(id)))
  }

  /** The context every built object is registered in. */
  class Context {
    var actions: map<ActionKey, Action>
    var groups: map<int, Group>

    constructor ()
      ensures actions == map[] && groups == map[]
    {
      actions := map[];
      groups := map[];
    }
  }

  // ---------------------------------------------------------------------------
  // building
  // ---------------------------------------------------------------------------

  /** _build_external_action: a document trigger wins over an action-event trigger. */
  function BuildExternalAction(models: Models, t: ReswareModel.Trigger): (r: Result<ExternalAction, BuildError>)
    ensures r.Ok? <==> (
      && t.externalActionId in models.externalActions
      && (t.documentTypeId.Some? ==> t.documentTypeId.value in models.documentTypes)
      && (t.documentTypeId.None? && t.actionEventId.Some? ==> t.actionEventId.value in models.actionEvents))
    ensures r.Ok? ==> r.value.id == t.externalActionId && r.value.name == models.externalActions[t.externalActionId].name
    ensures r.Ok? ==> (r.value.DocumentAdded? <==> t.documentTypeId.Some?)
    ensures r.Ok? ==> (r.value.ActionEventReceived? <==> t.documentTypeId.None? && t.actionEventId.Some?)
  {
    var ext :- Find(models.externalActions, "external_actions", t.externalActionId);
    if t.documentTypeId.Some? then
      var doc :- Find(models.documentTypes, "document_types", t.documentTypeId.value);
      Ok(DocumentAdded(t.externalActionId, ext.name, doc.id, doc.name))
    else if t.actionEventId.Some? then
      var ae :- Find(models.actionEvents, "action_events", t.actionEventId.value);
      Ok(ActionEventReceived(t.externalActionId, ext.name, ae.id, ae.name))
    else
      Ok(ExternalAction(t.externalActionId, ext.name))
  }

  /** _build_affects: an offset affect when an offset is set, then a complete affect when
      auto_complete is true, both only for a row naming an affected group. A row naming
      a created group raises when the generator reaches it: the row class has no
      `created_action_id` attribute. */
  function BuildAffects(cols: AffectCols): (r: Result<seq<Affect>, BuildError>)
    ensures r.Err? <==> cols.createdGroupId.Some?
    ensures r.Err? ==> r.error == NoAttribute("created_action_id")
    ensures r.Ok? ==> |r.value| <= 2 && forall i :: 0 <= i < |r.value| ==>
      && Some(r.value[i].groupId) == cols.affectedGroupId
      && r.value[i].actionId == cols.affectedActionId
      && r.value[i].task == cols.affectedTask
    ensures r.Ok? ==> forall i :: 0 <= i < |r.value| ==>
      (r.value[i].OffsetActionAffect? ==> Some(r.value[i].offset) == cols.offset)
    ensures r.Ok? && |r.value| == 2 ==> r.value[0].OffsetActionAffect? && r.value[1].CompleteActionAffect?
  {
    var affected :=
      if cols.affectedGroupId.None? then []
      else
        var g := cols.affectedGroupId.value;
        (if cols.offset.Some? then [OffsetActionAffect(g, cols.affectedActionId, cols.affectedTask, cols.offset.value)] else [])
        + (if cols.autoComplete == Some(true) then [CompleteActionAffect(g, cols.affectedActionId, cols.affectedTask)] else []);
    if cols.createdGroupId.Some? then Err(NoAttribute("created_action_id")) else Ok(affected)
  }

  /** An affect row yields an offset affect exactly when it names an affected group
      and an offset, and a complete affect exactly when it names an affected group and
      auto_complete is true. */
  lemma BuildAffectsKinds(cols: AffectCols)
    requires cols.createdGroupId.None?
    ensures (exists a :: a in BuildAffects(cols).value && a.OffsetActionAffect?) <==>
      cols.affectedGroupId.Some? && cols.offset.Some?
    ensures (exists a :: a in BuildAffects(cols).value && a.CompleteActionAffect?) <==>
      cols.affectedGroupId.Some? && cols.autoComplete == Some(true)
  {
    var r := BuildAffects(cols).value;
    if cols.affectedGroupId.Some? {
      var g := cols.affectedGroupId.value;
      if cols.offset.Some? {
        assert r[0] == OffsetActionAffect(g, cols.affectedActionId, cols.affectedTask, cols.offset.value);
      }
      if cols.autoComplete == Some(true) {
        assert r[|r| - 1] == CompleteActionAffect(g, cols.affectedActionId, cols.affectedTask);
      }
    }
  }

  /** _build_triggers: one trigger per affect, all sharing the row's external action,
      which is built first. */
  function BuildTriggers(models: Models, t: ReswareModel.Trigger): (r: Result<seq<Trigger>, BuildError>)
    ensures r.Ok? ==> BuildExternalAction(models, t).Ok? && BuildAffects(t.cols).Ok?
    ensures r.Ok? ==> |r.value| == |BuildAffects(t.cols).value| && forall i :: 0 <= i < |r.value| ==>
      r.value[i] == Trigger.Trigger(BuildAffects(t.cols).value[i], BuildExternalAction(models, t).value)
    ensures BuildExternalAction(models, t).Err? ==> r == Err(BuildExternalAction(models, t).error)
    ensures BuildExternalAction(models, t).Ok? && BuildAffects(t.cols).Err? ==> r == Err(BuildAffects(t.cols).error)
    ensures r.Ok? <==> BuildExternalAction(models, t).Ok? && BuildAffects(t.cols).Ok?
  {
    var ext :- BuildExternalAction(models, t);
    var affects :- BuildAffects(t.cols);
    Ok(seq(|affects|, i requires 0 <= i < |affects| => Trigger.Trigger(affects[i], ext)))
  }

  /** The start and complete affect lists _build_action extends, row by row. A row
      whose task is NULL is skipped, so its affects are never built. */
  function AffectLists(rows: seq<GroupActionAffect>): Result<(seq<Affect>, seq<Affect>), BuildError> {
    if rows == [] then Ok(([], []))
    else
      var n := |rows| - 1;
      var lists :- AffectLists(rows[..n]);
      AddAffects(lists, rows[n])
  }

  /** One turn of the loop over affect rows. */
  function AddAffects(lists: (seq<Affect>, seq<Affect>), row: GroupActionAffect): Result<(seq<Affect>, seq<Affect>), BuildError> {
    match row.task
    case Some(Start) =>
      var affects :- BuildAffects(row.cols);
      Ok((lists.0 + affects, lists.1))
    case Some(Complete) =>
      var affects :- BuildAffects(row.cols);
      Ok((lists.0, lists.1 + affects))
    case None => Ok(lists)
  }

  /** The builder fails exactly when some row with a task asks to create a group. */
  lemma {:induction false} AffectListsOk(rows: seq<GroupActionAffect>)
    ensures AffectLists(rows).Ok? <==>
      forall i :: 0 <= i < |rows| && rows[i].task.Some? ==> rows[i].cols.createdGroupId.None?
  {
    if rows != [] {
      var n := |rows| - 1;
      AffectListsOk(rows[..n]);
      assert forall i :: 0 <= i < n ==> rows[..n][i] == rows[i];
      if AffectLists(rows[..n]).Ok? {
        var lists := AffectLists(rows[..n]).value;
        assert AffectLists(rows) == AddAffects(lists, rows[n]);
      }
    }
  }

  /** The list of the two that rows with task t extend. */
  function Side(lists: (seq<Affect>, seq<Affect>), t: Task): seq<Affect> {
    if t == Start then lists.0 else lists.1
  }

  /** Row i has task t and built the affect x. */
  predicate RoutedAt(rows: seq<GroupActionAffect>, i: int, t: Task, x: Affect) {
    0 <= i < |rows| && rows[i].task == Some(t) && BuildAffects(rows[i].cols).Ok? &&
    x in BuildAffects(rows[i].cols).value
  }

  /** One row extends the list of its own task with what it built and leaves the other. */
  lemma AddAffectsSide(lists: (seq<Affect>, seq<Affect>), row: GroupActionAffect, t: Task)
    requires AddAffects(lists, row).Ok?
    ensures row.task == Some(t) ==>
      BuildAffects(row.cols).Ok? &&
      Side(AddAffects(lists, row).value, t) == Side(lists, t) + BuildAffects(row.cols).value
    ensures row.task != Some(t) ==> Side(AddAffects(lists, row).value, t) == Side(lists, t)
  {
  }

  /** Where the built affects go: an affect is in the start list exactly when some row
      with task START built it, and likewise for COMPLETE. */
  lemma {:induction false} AffectListsRouting(rows: seq<GroupActionAffect>, t: Task)
    requires AffectLists(rows).Ok?
    ensures forall x :: x in Side(AffectLists(rows).value, t) <==> exists i :: RoutedAt(rows, i, t, x)
  {
    if rows != [] {
      var n := |rows| - 1;
      var front := rows[..n];
      AffectListsRouting(front, t);
      var prev := AffectLists(front).value;
      assert AffectLists(rows) == AddAffects(prev, rows[n]);
      AddAffectsSide(prev, rows[n], t);
      forall x | x in Side(AffectLists(rows).value, t)
        ensures exists i :: RoutedAt(rows, i, t, x)
      {
        if x in Side(prev, t) {
          var i :| RoutedAt(front, i, t, x);
          assert front[i] == rows[i];
          assert RoutedAt(rows, i, t, x);
        } else {
          assert RoutedAt(rows, n, t, x);
        }
      }
      forall x | exists i :: RoutedAt(rows, i, t, x)
        ensures x in Side(AffectLists(rows).value, t)
      {
        var i :| RoutedAt(rows, i, t, x);
        if i < n {
          assert front[i] == rows[i];
          assert RoutedAt(front, i, t, x);
        }
      }
    }
  }

  /** What row builds for the list of task t: its affects when its task is t, and
      nothing otherwise. */
  function BuiltFor(row: GroupActionAffect, t: Task): seq<Affect> {
    if row.task == Some(t) && BuildAffects(row.cols).Ok? then BuildAffects(row.cols).value else []
  }

  /** The affects of the rows with task t, in row order: an independent statement of
      the list _build_action builds for t. */
  function RoutedTo(rows: seq<GroupActionAffect>, t: Task): seq<Affect> {
    if rows == [] then [] else BuiltFor(rows[0], t) + RoutedTo(rows[1..], t)
  }

  lemma {:induction false} RoutedToAppend(a: seq<GroupActionAffect>, b: seq<GroupActionAffect>, t: Task)
    ensures RoutedTo(a + b, t) == RoutedTo(a, t) + RoutedTo(b, t)
  {
    if a == [] {
      assert a + b == b;
    } else {
      assert (a + b)[0] == a[0] && (a + b)[1..] == a[1..] + b;
      RoutedToAppend(a[1..], b, t);
    }
  }

  /** Each list is exactly the in-order filter of the rows by task, each row contributing
      what it built. */
  lemma {:induction false} AffectListsFilter(rows: seq<GroupActionAffect>, t: Task)
    requires AffectLists(rows).Ok?
    ensures Side(AffectLists(rows).value, t) == RoutedTo(rows, t)
  {
    if rows != [] {
      var n := |rows| - 1;
      var front := rows[..n];
      AffectListsFilter(front, t);
      var prev := AffectLists(front).value;
      assert AffectLists(rows) == AddAffects(prev, rows[n]);
      AddAffectsSide(prev, rows[n], t);
      assert rows == front + [rows[n]];
      RoutedToAppend(front, [rows[n]], t);
      assert [rows[n]][1..] == [];
    }
  }

  /** The email a row turns into. The builder passes the action's group id and action
      id in that order, while Email declares action_id before group_id: the email's
      action_id holds the group id and its group_id the action id. */
  function EmailFor(models: Models, groupId: int, actionId: int, row: ActionEmail): (r: Result<Email, BuildError>)
    ensures r.Ok? <==> row.emailId in models.emails
    ensures r.Ok? ==> r.value == Email(groupId, actionId, models.emails[row.emailId].name, row.task)
  {
    var e :- Find(models.emails, "emails", row.emailId);
    Ok(Email(groupId, actionId, e.name, row.task))
  }

  /** The start and complete email lists, row by row; every row has a task. */
  function EmailLists(models: Models, groupId: int, actionId: int, rows: seq<ActionEmail>)
    : (r: Result<(seq<Email>, seq<Email>), BuildError>)
    ensures r.Ok? ==> |r.value.0| + |r.value.1| == |rows|
  {
    if rows == [] then Ok(([], []))
    else
      var n := |rows| - 1;
      var lists :- EmailLists(models, groupId, actionId, rows[..n]);
      var email :- EmailFor(models, groupId, actionId, rows[n]);
      if rows[n].task == Start then Ok((lists.0 + [email], lists.1)) else Ok((lists.0, lists.1 + [email]))
  }

  /** The lists fail exactly on an unknown template, and hold the email of every row,
      split by task. */
  lemma {:induction false} EmailListsMeaning(models: Models, groupId: int, actionId: int, rows: seq<ActionEmail>)
    ensures EmailLists(models, groupId, actionId, rows).Ok? <==>
      forall i :: 0 <= i < |rows| ==> rows[i].emailId in models.emails
    ensures EmailLists(models, groupId, actionId, rows).Ok? ==>
      var lists := EmailLists(models, groupId, actionId, rows).value;
      && (forall e :: e in lists.0 <==>
            exists i :: (0 <= i < |rows| && rows[i].task == Start &&
                         e == EmailFor(models, groupId, actionId, rows[i]).value))
      && (forall e :: e in lists.1 <==>
            exists i :: (0 <= i < |rows| && rows[i].task == Complete &&
                         e == EmailFor(models, groupId, actionId, rows[i]).value))
  {
    if rows != [] {
      var n := |rows| - 1;
      EmailListsMeaning(models, groupId, actionId, rows[..n]);
      assert forall i :: 0 <= i < n ==> rows[..n][i] == rows[i];
    }
  }

  /** The emails of the rows with task t, in row order, rows with an unknown template
      contributing nothing: an independent statement of the list _build_action builds. */
  function EmailsFor(models: Models, groupId: int, actionId: int, rows: seq<ActionEmail>, t: Task): seq<Email> {
    if rows == [] then []
    else
      (if rows[0].task == t && rows[0].emailId in models.emails
       then [Email(groupId, actionId, models.emails[rows[0].emailId].name, t)] else []) +
      EmailsFor(models, groupId, actionId, rows[1..], t)
  }

  lemma {:induction false} EmailsForAppend(models: Models, groupId: int, actionId: int, a: seq<ActionEmail>, b: seq<ActionEmail>, t: Task)
    ensures EmailsFor(models, groupId, actionId, a + b, t) ==
            EmailsFor(models, groupId, actionId, a, t) + EmailsFor(models, groupId, actionId, b, t)
  {
    if a == [] {
      assert a + b == b;
    } else {
      assert (a + b)[0] == a[0] && (a + b)[1..] == a[1..] + b;
      EmailsForAppend(models, groupId, actionId, a[1..], b, t);
    }
  }

  /** Each email list is exactly the in-order filter of the rows by task. */
  lemma {:induction false} EmailListsFilter(models: Models, groupId: int, actionId: int, rows: seq<ActionEmail>)
    requires EmailLists(models, groupId, actionId, rows).Ok?
    ensures EmailLists(models, groupId, actionId, rows).value.0 == EmailsFor(models, groupId, actionId, rows, Start)
    ensures EmailLists(models, groupId, actionId, rows).value.1 == EmailsFor(models, groupId, actionId, rows, Complete)
  {
    if rows != [] {
      var n := |rows| - 1;
      var front := rows[..n];
      EmailListsFilter(models, groupId, actionId, front);
      assert rows == front + [rows[n]];
      EmailsForAppend(models, groupId, actionId, front, [rows[n]], Start);
      EmailsForAppend(models, groupId, actionId, front, [rows[n]], Complete);
      assert [rows[n]][1..] == [];
    }
  }

  /** _build_action, as a value: the action of the group-action row with the affects of
      its (group, action) key and the emails of its action id. */
  function ActionFrom(models: Models, ga: GroupAction): Result<Action, BuildError> {
    var ma :- Find(models.actions, "actions", ga.actionId);
    var affects :- AffectLists(Many(models.groupActionAffects, (ga.groupId, ma.id)));
    var emails :- EmailLists(models, ga.groupId, ma.id, Many(models.actionEmails, ma.id));
    Ok(Action(ma.id, ga.groupId, ma.name, ma.displayName, ma.description, ma.hidden, ga.dynamic,
              emails.0, emails.1, affects.0, affects.1))
  }

  /** The built action carries the action row's id and fields, the group-action row's
      group and flag; every email it sends records the action's ids swapped. */
  lemma ActionFromFields(models: Models, ga: GroupAction)
    requires ActionFrom(models, ga).Ok?
    ensures var a := ActionFrom(models, ga).value; var ma := models.actions[ga.actionId];
      && ga.actionId in models.actions
      && a.Key() == (ga.groupId, ma.id) && a.name == ma.name && a.dynamic == ga.dynamic
      && (forall e :: e in a.Emails() ==> e.actionId == a.groupId && e.groupId == a.actionId)
      && (forall e :: e in a.startEmails ==> e.task == Start)
      && (forall e :: e in a.completeEmails ==> e.task == Complete)
  {
    var ma := models.actions[ga.actionId];
    var rows := Many(models.actionEmails, ma.id);
    EmailListsMeaning(models, ga.groupId, ma.id, rows);
  }

  /** The actions of a group, one per group-action row, in row order. */
  function ActionsFrom(models: Models, rows: seq<GroupAction>): Result<seq<Action>, BuildError> {
    if rows == [] then Ok([])
    else
      var n := |rows| - 1;
      var prev :- ActionsFrom(models, rows[..n]);
      var a :- ActionFrom(models, rows[n]);
      Ok(prev + [a])
  }

  /** One action per row, each the one its row builds, in row order. */
  lemma {:induction false} ActionsFromAt(models: Models, rows: seq<GroupAction>)
    ensures ActionsFrom(models, rows).Ok? ==>
              |ActionsFrom(models, rows).value| == |rows| &&
              forall i :: 0 <= i < |rows| ==> ActionFrom(models, rows[i]) == Ok(ActionsFrom(models, rows).value[i])
  {
    if rows != [] && ActionsFrom(models, rows).Ok? {
      var n := |rows| - 1;
      var front := rows[..n];
      ActionsFromAt(models, front);
      var all := ActionsFrom(models, rows).value;
      var prev := ActionsFrom(models, front).value;
      var last := ActionFrom(models, rows[n]);
      assert last.Ok? && all == prev + [last.value];
      forall i | 0 <= i < |rows| ensures ActionFrom(models, rows[i]) == Ok(all[i]) {
        if i < n {
          assert front[i] == rows[i] && all[i] == prev[i];
          assert ActionFrom(models, front[i]) == Ok(prev[i]);
        } else {
          assert all[i] == last.value;
        }
      }
    }
  }

  /** The triggers of a group: those of each trigger row in turn. */
  function TriggersFrom(models: Models, rows: seq<ReswareModel.Trigger>): Result<seq<Trigger>, BuildError> {
    if rows == [] then Ok([])
    else
      var n := |rows| - 1;
      var prev :- TriggersFrom(models, rows[..n]);
      var ts :- BuildTriggers(models, rows[n]);
      Ok(prev + ts)
  }

  /** _build_group, as a value. */
  function GroupFrom(models: Models, alg: ActionListGroups): Result<Group, BuildError> {
    var mg :- Find(models.groups, "groups", alg.groupId);
    var actions :- ActionsFrom(models, Many(models.groupActions, mg.id));
    var triggers :- TriggersFrom(models, Many(models.triggers, mg.id));
    Ok(Group(mg.id, mg.name, alg.optional, actions, triggers))
  }

  /** The groups of an action list, one per action-list-group row, in row order. */
  function GroupsFrom(models: Models, rows: seq<ActionListGroups>): Result<seq<Group>, BuildError> {
    if rows == [] then Ok([])
    else
      var n := |rows| - 1;
      var prev :- GroupsFrom(models, rows[..n]);
      var g :- GroupFrom(models, rows[n]);
      Ok(prev + [g])
  }

  /** One group per row, each the one its row builds, in row order. */
  lemma {:induction false} GroupsFromAt(models: Models, rows: seq<ActionListGroups>)
    ensures GroupsFrom(models, rows).Ok? ==>
              |GroupsFrom(models, rows).value| == |rows| &&
              forall i :: 0 <= i < |rows| ==> GroupFrom(models, rows[i]) == Ok(GroupsFrom(models, rows).value[i])
  {
    if rows != [] && GroupsFrom(models, rows).Ok? {
      var n := |rows| - 1;
      var front := rows[..n];
      GroupsFromAt(models, front);
      var all := GroupsFrom(models, rows).value;
      var prev := GroupsFrom(models, front).value;
      var last := GroupFrom(models, rows[n]);
      assert last.Ok? && all == prev + [last.value];
      forall i | 0 <= i < |rows| ensures GroupFrom(models, rows[i]) == Ok(all[i]) {
        if i < n {
          assert front[i] == rows[i] && all[i] == prev[i];
          assert GroupFrom(models, front[i]) == Ok(prev[i]);
        } else {
          assert all[i] == last.value;
        }
      }
    }
  }

  /** build_action_list, as a value. */
  function ActionListFrom(models: Models, id: int): Result<ActionList, BuildError> {
    var ml :- Find(models.actionLists, "action_lists", id);
    var groups :- GroupsFrom(models, Many(models.actionListGroups, id));
    Ok(ActionList(ml.name, groups))
  }

  /** ctx.actions after registering the actions in order: a later action with the same
      key replaces an earlier one. */
  function Register(m: map<ActionKey, Action>, actions: seq<Action>): map<ActionKey, Action> {
    if actions == [] then m
    else
      var n := |actions| - 1;
      Register(m, actions[..n])[actions[n].Key() := actions[n]]
  }

  /** ctx.groups after registering the groups in order. */
  function RegisterGroups(m: map<int, Group>, groups: seq<Group>): map<int, Group> {
    if groups == [] then m
    else
      var n := |groups| - 1;
      RegisterGroups(m, groups[..n])[groups[n].id := groups[n]]
  }

  /** Every action of every group, in order. */
  function AllActions(groups: seq<Group>): seq<Action> {
    if groups == [] then [] else AllActions(groups[..|groups| - 1]) + groups[|groups| - 1].actions
  }

  /** Every trigger of every group, in order. */
  function AllTriggers(groups: seq<Group>): seq<Trigger> {
    if groups == [] then [] else groups[0].triggers + AllTriggers(groups[1..])
  }

  lemma {:induction false} RegisterAppend(m: map<ActionKey, Action>, a: seq<Action>, b: seq<Action>)
    ensures Register(m, a + b) == Register(Register(m, a), b)
  {
    if b != [] {
      var n := |b| - 1;
      RegisterAppend(m, a, b[..n]);
      assert (a + b)[..|a + b| - 1] == a + b[..n];
    } else {
      assert a + b == a;
    }
  }

  /** A context whose every entry is filed under its own key. */
  predicate KeyedByKey(m: map<ActionKey, Action>) {
    forall k :: k in m ==> m[k].Key() == k
  }

  predicate GroupsById(m: map<int, Group>) {
    forall id :: id in m ==> m[id].id == id
  }

  /** Registering keeps every entry under its own key, adds exactly the registered keys,
      and leaves every registered action findable by its key. */
  lemma {:induction false} RegisterMeaning(m: map<ActionKey, Action>, actions: seq<Action>)
    requires KeyedByKey(m)
    ensures KeyedByKey(Register(m, actions))
    ensures forall k :: k in Register(m, actions) <==> k in m || exists i :: 0 <= i < |actions| && actions[i].Key() == k
    ensures forall i :: 0 <= i < |actions| ==> actions[i].Key() in Register(m, actions)
    ensures |actions| > 0 ==> Register(m, actions)[actions[|actions| - 1].Key()] == actions[|actions| - 1]
  {
    if actions != [] {
      var n := |actions| - 1;
      RegisterMeaning(m, actions[..n]);
      assert forall i :: 0 <= i < n ==> actions[..n][i] == actions[i];
    }
  }

  lemma {:induction false} RegisterGroupsMeaning(m: map<int, Group>, groups: seq<Group>)
    requires GroupsById(m)
    ensures GroupsById(RegisterGroups(m, groups))
    ensures forall i :: 0 <= i < |groups| ==> groups[i].id in RegisterGroups(m, groups)
  {
    if groups != [] {
      var n := |groups| - 1;
      RegisterGroupsMeaning(m, groups[..n]);
      assert forall i :: 0 <= i < n ==> groups[..n][i] == groups[i];
    }
  }

  lemma {:induction false} AllActionsMembers(groups: seq<Group>)
    ensures forall a :: a in AllActions(groups) <==> exists g :: g in groups && a in g.actions
  {
    if groups != [] {
      var n := |groups| - 1;
      AllActionsMembers(groups[..n]);
      assert groups == groups[..n] + [groups[n]];
    }
  }

  /** After a successful build the context files every action under its own key and
      every group under its id, and every action and group of the list is in it. */
  lemma ContextOfList(groups: seq<Group>)
    ensures KeyedByKey(Register(map[], AllActions(groups)))
    ensures GroupsById(RegisterGroups(map[], groups))
    ensures forall g, a :: g in groups && a in g.actions ==> a.Key() in Register(map[], AllActions(groups))
    ensures forall g :: g in groups ==> g.id in RegisterGroups(map[], groups)
  {
    RegisterMeaning(map[], AllActions(groups));
    RegisterGroupsMeaning(map[], groups);
    AllActionsMembers(groups);
    forall g, a | g in groups && a in g.actions ensures a.Key() in Register(map[], AllActions(groups)) {
      assert a in AllActions(groups);
      var i :| 0 <= i < |AllActions(groups)| && AllActions(groups)[i] == a;
    }
    forall g | g in groups ensures g.id in RegisterGroups(map[], groups) {
      var i :| 0 <= i < |groups| && groups[i] == g;
    }
  }

  // ---------------------------------------------------------------------------
  // the builders, which fill the context as they go
  // ---------------------------------------------------------------------------

  /** _build_action: registers the action under its key, then fills its affect and
      email lists. */
  method BuildAction(models: Models, ga: GroupAction, ctx: Context) returns (r: Result<Action, BuildError>)
    modifies ctx
    ensures r == ActionFrom(models, ga)
    ensures r.Ok? ==> ctx.actions == old(ctx.actions)[r.value.Key() := r.value] && ctx.groups == old(ctx.groups)
  {
    if ga.actionId !in models.actions {
      return Err(KeyMissing("actions", IdKey(ga.actionId)));
    }
    var ma := models.actions[ga.actionId];
    var key := (ga.groupId, ma.id);
    ctx.actions := ctx.actions[key := Action(ma.id, ga.groupId, ma.name, ma.displayName, ma.description,
                                             ma.hidden, ga.dynamic, [], [], [], [])];
    var affects := CollectAffects(Many(models.groupActionAffects, key));
    if affects.Err? {
      return Err(affects.error);
    }
    var emails := CollectEmails(models, ga.groupId, ma.id, Many(models.actionEmails, ma.id));
    if emails.Err? {
      return Err(emails.error);
    }
    var action := Action(ma.id, ga.groupId, ma.name, ma.displayName, ma.description, ma.hidden, ga.dynamic,
                         emails.value.0, emails.value.1, affects.value.0, affects.value.1);
    ctx.actions := ctx.actions[key := action];
    return Ok(action);
  }

  /** The loop of _build_action over the affect rows of an action. */
  method CollectAffects(rows: seq<GroupActionAffect>) returns (r: Result<(seq<Affect>, seq<Affect>), BuildError>)
    ensures r == AffectLists(rows)
  {
    var startAffects, completeAffects := [], [];
    var i := 0;
    while i < |rows|
      invariant 0 <= i <= |rows|
      invariant AffectLists(rows[..i]) == Ok((startAffects, completeAffects))
    {
      assert rows[..i + 1][..i] == rows[..i];
      var row := rows[i];
      if row.task == Some(Start) {
        var affects := BuildAffects(row.cols);
        if affects.Err? {
          AffectListsStops(rows, i + 1);
          return Err(affects.error);
        }
        startAffects := startAffects + affects.value;
      }
      if row.task == Some(Complete) {
        var affects := BuildAffects(row.cols);
        if affects.Err? {
          AffectListsStops(rows, i + 1);
          return Err(affects.error);
        }
        completeAffects := completeAffects + affects.value;
      }
      i := i + 1;
    }
    assert rows[..i] == rows;
    return Ok((startAffects, completeAffects));
  }

  /** The loop of _build_action over the email rows of an action. */
  method CollectEmails(models: Models, groupId: int, actionId: int, rows: seq<ActionEmail>)
    returns (r: Result<(seq<Email>, seq<Email>), BuildError>)
    ensures r == EmailLists(models, groupId, actionId, rows)
  {
    var startEmails, completeEmails := [], [];
    var j := 0;
    while j < |rows|
      invariant 0 <= j <= |rows|
      invariant EmailLists(models, groupId, actionId, rows[..j]) == Ok((startEmails, completeEmails))
    {
      assert rows[..j + 1][..j] == rows[..j];
      var row := rows[j];
      if row.emailId !in models.emails {
        EmailListsStops(models, groupId, actionId, rows, j + 1);
        return Err(KeyMissing("emails", IdKey(row.emailId)));
      }
      if row.task == Start {
        startEmails := startEmails + [Email(groupId, actionId, models.emails[row.emailId].name, row.task)];
      }
      if row.task == Complete {
        completeEmails := completeEmails + [Email(groupId, actionId, models.emails[row.emailId].name, row.task)];
      }
      j := j + 1;
    }
    assert rows[..j] == rows;
    return Ok((startEmails, completeEmails));
  }

  lemma {:induction false} AffectListsStops(rows: seq<GroupActionAffect>, i: nat)
    requires i <= |rows| && AffectLists(rows[..i]).Err?
    ensures AffectLists(rows) == AffectLists(rows[..i])
    decreases |rows| - i
  {
    if i < |rows| {
      assert rows[..i + 1][..i] == rows[..i];
      AffectListsStops(rows, i + 1);
    } else {
      assert rows[..i] == rows;
    }
  }

  lemma {:induction false} EmailListsStops(models: Models, groupId: int, actionId: int, rows: seq<ActionEmail>, i: nat)
    requires i <= |rows| && EmailLists(models, groupId, actionId, rows[..i]).Err?
    ensures EmailLists(models, groupId, actionId, rows) == EmailLists(models, groupId, actionId, rows[..i])
    decreases |rows| - i
  {
    if i < |rows| {
      assert rows[..i + 1][..i] == rows[..i];
      EmailListsStops(models, groupId, actionId, rows, i + 1);
    } else {
      assert rows[..i] == rows;
    }
  }

  /** _build_group: registers the group, builds its actions in row order, then its
      triggers. */
  method BuildGroup(models: Models, alg: ActionListGroups, ctx: Context) returns (r: Result<Group, BuildError>)
    modifies ctx
    ensures r == GroupFrom(models, alg)
    ensures r.Ok? ==> ctx.actions == Register(old(ctx.actions), r.value.actions)
    ensures r.Ok? ==> ctx.groups == old(ctx.groups)[r.value.id := r.value]
  {
    if alg.groupId !in models.groups {
      return Err(KeyMissing("groups", IdKey(alg.groupId)));
    }
    var mg := models.groups[alg.groupId];
    assert Find(models.groups, "groups", alg.groupId) == Ok(mg);
    ctx.groups := ctx.groups[mg.id := Group(mg.id, mg.name, alg.optional, [], [])];
    assert ctx.actions == old(ctx.actions);
    var actions := BuildActions(models, Many(models.groupActions, mg.id), ctx);
    if actions.Err? {
      return Err(actions.error);
    }
    var triggers := CollectTriggers(models, Many(models.triggers, mg.id));
    if triggers.Err? {
      return Err(triggers.error);
    }
    var group := Group(mg.id, mg.name, alg.optional, actions.value, triggers.value);
    assert GroupFrom(models, alg) == Ok(group);
    ctx.groups := ctx.groups[mg.id := group];
    return Ok(group);
  }

  /** The loop of _build_group over the group-action rows of a group. */
  method BuildActions(models: Models, rows: seq<GroupAction>, ctx: Context) returns (r: Result<seq<Action>, BuildError>)
    modifies ctx
    ensures r == ActionsFrom(models, rows)
    ensures r.Ok? ==> ctx.actions == Register(old(ctx.actions), r.value) && ctx.groups == old(ctx.groups)
  {
    var actions := [];
    var i := 0;
    while i < |rows|
      invariant 0 <= i <= |rows|
      invariant ActionsFrom(models, rows[..i]) == Ok(actions)
      invariant ctx.actions == Register(old(ctx.actions), actions)
      invariant ctx.groups == old(ctx.groups)
    {
      var a := BuildAction(models, rows[i], ctx);
      ActionsFromNext(models, rows, i, actions);
      if a.Err? {
        ActionsFromStops(models, rows, i + 1);
        return Err(a.error);
      }
      actions := actions + [a.value];
      i := i + 1;
    }
    assert rows[..i] == rows;
    return Ok(actions);
  }

  /** The loop of _build_group over the trigger rows of a group. */
  method CollectTriggers(models: Models, rows: seq<ReswareModel.Trigger>) returns (r: Result<seq<Trigger>, BuildError>)
    ensures r == TriggersFrom(models, rows)
  {
    var triggers := [];
    var j := 0;
    while j < |rows|
      invariant 0 <= j <= |rows|
      invariant TriggersFrom(models, rows[..j]) == Ok(triggers)
    {
      assert rows[..j + 1][..j] == rows[..j];
      var ts := BuildTriggers(models, rows[j]);
      if ts.Err? {
        TriggersFromStops(models, rows, j + 1);
        return Err(ts.error);
      }
      triggers := triggers + ts.value;
      j := j + 1;
    }
    assert rows[..j] == rows;
    return Ok(triggers);
  }

  lemma ActionsFromNext(models: Models, rows: seq<GroupAction>, i: nat, prev: seq<Action>)
    requires i < |rows| && ActionsFrom(models, rows[..i]) == Ok(prev)
    ensures ActionFrom(models, rows[i]).Err? ==> ActionsFrom(models, rows[..i + 1]) == Err(ActionFrom(models, rows[i]).error)
    ensures ActionFrom(models, rows[i]).Ok? ==> ActionsFrom(models, rows[..i + 1]) == Ok(prev + [ActionFrom(models, rows[i]).value])
  {
    assert rows[..i + 1][..i] == rows[..i];
  }

  lemma {:induction false} ActionsFromStops(models: Models, rows: seq<GroupAction>, i: nat)
    requires i <= |rows| && ActionsFrom(models, rows[..i]).Err?
    ensures ActionsFrom(models, rows) == Err(ActionsFrom(models, rows[..i]).error)
    decreases |rows| - i
  {
    if i < |rows| {
      assert rows[..i + 1][..i] == rows[..i];
      ActionsFromStops(models, rows, i + 1);
    } else {
      assert rows[..i] == rows;
    }
  }

  lemma {:induction false} TriggersFromStops(models: Models, rows: seq<ReswareModel.Trigger>, i: nat)
    requires i <= |rows| && TriggersFrom(models, rows[..i]).Err?
    ensures TriggersFrom(models, rows) == TriggersFrom(models, rows[..i])
    decreases |rows| - i
  {
    if i < |rows| {
      assert rows[..i + 1][..i] == rows[..i];
      TriggersFromStops(models, rows, i + 1);
    } else {
      assert rows[..i] == rows;
    }
  }

  lemma GroupsFromNext(models: Models, rows: seq<ActionListGroups>, i: nat, prev: seq<Group>)
    requires i < |rows| && GroupsFrom(models, rows[..i]) == Ok(prev)
    ensures GroupFrom(models, rows[i]).Err? ==> GroupsFrom(models, rows[..i + 1]) == Err(GroupFrom(models, rows[i]).error)
    ensures GroupFrom(models, rows[i]).Ok? ==> GroupsFrom(models, rows[..i + 1]) == Ok(prev + [GroupFrom(models, rows[i]).value])
  {
    assert rows[..i + 1][..i] == rows[..i];
  }

  lemma {:induction false} GroupsFromStops(models: Models, rows: seq<ActionListGroups>, i: nat)
    requires i <= |rows| && GroupsFrom(models, rows[..i]).Err?
    ensures GroupsFrom(models, rows) == Err(GroupsFrom(models, rows[..i]).error)
    decreases |rows| - i
  {
    if i < |rows| {
      assert rows[..i + 1][..i] == rows[..i];
      GroupsFromStops(models, rows, i + 1);
    } else {
      assert rows[..i] == rows;
    }
  }

  /** build_action_list: a fresh context, and the groups of the list's rows built in
      order into it. */
  method BuildActionList(models: Models, id: int) returns (r: Result<ActionList, BuildError>, ctx: Context)
    ensures fresh(ctx)
    ensures r == ActionListFrom(models, id)
    ensures r.Ok? ==> ctx.actions == Register(map[], AllActions(r.value.groups))
    ensures r.Ok? ==> ctx.groups == RegisterGroups(map[], r.value.groups)
  {
    ctx := new Context();
    if id !in models.actionLists {
      return Err(KeyMissing("action_lists", IdKey(id))), ctx;
    }
    var ml := models.actionLists[id];
    var rows := Many(models.actionListGroups, id);
    var groups := [];
    var i := 0;
    while i < |rows|
      invariant 0 <= i <= |rows|
      invariant GroupsFrom(models, rows[..i]) == Ok(groups)
      invariant ctx.actions == Register(map[], AllActions(groups))
      invariant ctx.groups == RegisterGroups(map[], groups)
    {
      var g := BuildGroup(models, rows[i], ctx);
      GroupsFromNext(models, rows, i, groups);
      if g.Err? {
        GroupsFromStops(models, rows, i + 1);
        return Err(g.error), ctx;
      }
      RegisterAppend(map[], AllActions(groups), g.value.actions);
      assert (groups + [g.value])[..|groups|] == groups;
      groups := groups + [g.value];
      i := i + 1;
    }
    assert rows[..i] == rows;
    return Ok(ActionList(ml.name, groups)), ctx;
  }
}
