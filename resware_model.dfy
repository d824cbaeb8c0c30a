/** The ResWare tables the graph is built from: the Task enum, the two custom column
    parsers, the declared tables whose lookups the graph relies on, the typed records,
    and the clean-up of placeholder partner restrictions done when the models load. */
module ReswareModel {
  import opened Wrappers
  import opened Db

  // ---------------------------------------------------------------------------
  // Task
  // ---------------------------------------------------------------------------

  /** The two tasks of a group action; an affect or an email fires when one is done. */
  datatype Task = Start | Complete

  /** The IntEnum values: START = 1, COMPLETE = 2. */
  function TaskValue(t: Task): (n: int)
    ensures n == 1 <==> t == Start
    ensures n == 2 <==> t == Complete
  {
    match t
    case Start => 1
    case Complete => 2
  }

  /** Task(v), the enum's value lookup: a value equal to 1 or to 2, else ValueError. */
  function TaskOf(v: Value): (r: Option<Task>)
    ensures r == Some(Start) <==> EqualsInt(v, 1)
    ensures r == Some(Complete) <==> EqualsInt(v, 2)
    ensures r == None <==> !EqualsInt(v, 1) && !EqualsInt(v, 2)
  {
    if EqualsInt(v, 1) then Some(Start)
    else if EqualsInt(v, 2) then Some(Complete)
    else None
  }

  /** The enum's own value looks up to the member. */
  lemma TaskRoundTrip(t: Task)
    ensures TaskOf(Int(TaskValue(t))) == Some(t)
  {
  }

  /** Task used as a column type: the member, carried as its int value. */
  function TaskType(v: Value): Outcome {
    match TaskOf(v)
    case Some(t) => Returned(Int(TaskValue(t)))
    case None => RaisesOther
  }

  // ---------------------------------------------------------------------------
  // column types and custom parsers
  // ---------------------------------------------------------------------------

  /** int used as a column type. */
  function IntType(v: Value): Outcome {
    match v
    case Int(i) => Returned(Int(i))
    case Bool(b) => Returned(Int(if b then 1 else 0))
    case _ => RaisesOther
  }

  /** bool used as a column type: truthiness. */
  function BoolType(v: Value): Outcome {
    Returned(Bool(Truthy(v)))
  }

  /** float used as a column type. */
  function FloatType(v: Value): Outcome {
    match v
    case Float(_, _) => Returned(v)
    case Int(i) => Returned(Float(Seqs.IntToString(i) + ".0", i == 0))
    case Bool(b) => Returned(Float(if b then "1.0" else "0.0", !b))
    case _ => RaisesOther
  }

  /** _email_start_complete_to_task: a truthy ActionStartComplete means COMPLETE. */
  function EmailStartCompleteToTask(v: Value): Outcome {
    Returned(Int(TaskValue(if Truthy(v) then Complete else Start)))
  }

  /** The parser never raises, and it answers COMPLETE exactly for a truthy column. */
  lemma EmailStartCompleteOutcomes(v: Value)
    ensures EmailStartCompleteToTask(v).Returned?
    ensures EmailStartCompleteToTask(v) == Returned(Int(2)) <==> Truthy(v)
    ensures EmailStartCompleteToTask(v) == Returned(Int(1)) <==> !Truthy(v)
  {
  }

  /** _group_partner_include: 1 includes, 2 excludes, anything else fails the assertion. */
  function GroupPartnerInclude(v: Value): Outcome {
    if EqualsInt(v, 1) || EqualsInt(v, 2) then Returned(Bool(EqualsInt(v, 1)))
    else RaisesOther
  }

  lemma GroupPartnerIncludeOutcomes(v: Value)
    ensures GroupPartnerInclude(v) == Returned(Bool(true)) <==> EqualsInt(v, 1)
    ensures GroupPartnerInclude(v) == Returned(Bool(false)) <==> EqualsInt(v, 2)
    ensures GroupPartnerInclude(v) == RaisesOther <==> !EqualsInt(v, 1) && !EqualsInt(v, 2)
  {
  }

  // ---------------------------------------------------------------------------
  // declared tables
  // ---------------------------------------------------------------------------

  function Col(name: string, column: string, nullable: bool, ty: Value -> Outcome): Field {
    Field(name, Some(column), nullable, ty, true)
  }

  /** The fields of the Affect base class. */
  const AffectFields: seq<Field> := [
    Col("affected_group_id", "AffectActionListGroupDefID", true, IntType),
    Col("affected_action_id", "AffectActionDefID", true, IntType),
    Col("affected_task", "AffectActionTypeID", true, TaskType),
    Col("offset", "AffectOffset", true, FloatType),
    Col("auto_complete", "AffectAutoComplete", true, BoolType),
    Col("created_action_group_id", "CreateActionActionListGroupDefID", true, IntType),
    Col("created_action_action_id", "CreateActionActionDefID", true, IntType),
    Col("created_group_id", "CreateGroupActionListGroupDefID", true, IntType)
  ]

  const GroupActionAffectTable: Table := Table(AffectFields + [
    Col("task", "ActionTypeID", true, TaskType),
    Col("group_id", "ActionListGroupDefID", false, IntType),
    Col("action_id", "ActionDefID", false, IntType)
  ], Attrs(["group_id", "action_id"]), true)

  const TriggerTable: Table := Table(AffectFields + [
    Col("external_action_id", "ExternalActionDefID", false, IntType),
    Col("group_id", "ActionListGroupDefID", false, IntType),
    Col("action_event_id", "ActionEventDefID", true, IntType),
    Col("document_type_id", "DocumentTypeID", true, IntType)
  ], Attr("group_id"), true)

  const ActionEmailTable: Table := Table([
    Col("action_id", "ActionDefID", false, IntType),
    Col("email_id", "ActionEmailTemplateID", false, IntType),
    Field("task", Some("ActionStartComplete"), false, EmailStartCompleteToTask, false)
  ], Attr("action_id"), true)

  const GroupActionPartnerRestrictionTable: Table := Table([
    Col("group_id", "ActionListGroupDefID", false, IntType),
    Col("action_id", "ActionDefID", false, IntType),
    Col("partner_id", "PartnerCompanyID", false, IntType),
    Field("include", Some("ActionPartnerAddTypeID"), false, GroupPartnerInclude, false)
  ], Attrs(["group_id", "action_id"]), true)

  const EmailPartnerRestrictionTable: Table := Table([
    Col("partner_id", "PartnerCompanyID", true, IntType),
    Col("email_id", "ActionEmailTemplateID", false, IntType),
    Col("include", "IncludeExclude", false, BoolType)
  ], Attr("email_id"), true)

  predicate AllColumns(fs: seq<Field>) {
    forall i :: 0 <= i < |fs| ==> fs[i].column.Some?
  }

  lemma {:induction false} ColumnFieldsOfAll(fs: seq<Field>)
    requires AllColumns(fs)
    ensures ColumnFields(fs) == fs
  {
    if fs != [] {
      ColumnFieldsOfAll(fs[1..]);
    }
  }

  /** A record create_from_db builds has an attribute for every column field. */
  lemma FieldInRecord(fs: seq<Field>, row: Row, i: nat)
    requires AllColumns(fs) && i < |fs| && CreateFromDb(fs, row).Ok?
    ensures fs[i].name in CreateFromDb(fs, row).value
  {
    ColumnFieldsOfAll(fs);
    var vs := Args(fs, row).value;
    assert CreateFromDb(fs, row).value == RecordOf(fs, vs);
  }

  lemma AffectFieldsColumns()
    ensures AllColumns(AffectFields)
  {
  }

  lemma AllColumnsAppend(a: seq<Field>, b: seq<Field>)
    requires AllColumns(a) && AllColumns(b)
    ensures AllColumns(a + b)
  {
  }

  /** A table whose lookup is the pair of fields i and j files a row under the pair of
      those attributes. */
  lemma PairEntry(t: Table, row: Row, i: nat, j: nat)
    requires AllColumns(t.fields) && i < |t.fields| && j < |t.fields|
    requires t.lookup == Attrs([t.fields[i].name, t.fields[j].name])
    requires CreateFromDb(t.fields, row).Ok?
    ensures var rec := CreateFromDb(t.fields, row).value;
      && t.fields[i].name in rec && t.fields[j].name in rec
      && Entry(t, row) == Ok((Tuple([rec[t.fields[i].name], rec[t.fields[j].name]]), rec))
  {
    FieldInRecord(t.fields, row, i);
    FieldInRecord(t.fields, row, j);
    var rec := CreateFromDb(t.fields, row).value;
    var names := [t.fields[i].name, t.fields[j].name];
    CreateKeyTuple(names, rec, rec);
    var k := CreateKey(Attrs(names), rec).value;
    assert k.vs == [rec[names[0]], rec[names[1]]];
  }

  /** Every loaded affect row is filed under (group_id, action_id), the key the graph
      looks its action's affects up by. */
  lemma GroupActionAffectKey(row: Row)
    requires CreateFromDb(GroupActionAffectTable.fields, row).Ok?
    ensures var rec := CreateFromDb(GroupActionAffectTable.fields, row).value;
      && "group_id" in rec && "action_id" in rec
      && Entry(GroupActionAffectTable, row) == Ok((Tuple([rec["group_id"], rec["action_id"]]), rec))
  {
    var extra := [
      Col("task", "ActionTypeID", true, TaskType),
      Col("group_id", "ActionListGroupDefID", false, IntType),
      Col("action_id", "ActionDefID", false, IntType)
    ];
    AffectFieldsColumns();
    AllColumnsAppend(AffectFields, extra);
    var fs := GroupActionAffectTable.fields;
    assert fs == AffectFields + extra;
    assert fs[9] == extra[1] && fs[10] == extra[2];
    PairEntry(GroupActionAffectTable, row, 9, 10);
  }

  /** A table whose lookup is field i files a row under that attribute. */
  lemma ScalarEntry(t: Table, row: Row, i: nat)
    requires AllColumns(t.fields) && i < |t.fields| && t.lookup == Attr(t.fields[i].name)
    requires CreateFromDb(t.fields, row).Ok?
    ensures var rec := CreateFromDb(t.fields, row).value;
      t.fields[i].name in rec && Entry(t, row) == Ok((Scalar(rec[t.fields[i].name]), rec))
  {
    FieldInRecord(t.fields, row, i);
  }

  /** Every loaded trigger row is filed under its group_id. */
  lemma TriggerKey(row: Row)
    requires CreateFromDb(TriggerTable.fields, row).Ok?
    ensures var rec := CreateFromDb(TriggerTable.fields, row).value;
      "group_id" in rec && Entry(TriggerTable, row) == Ok((Scalar(rec["group_id"]), rec))
  {
    var extra := [
      Col("external_action_id", "ExternalActionDefID", false, IntType),
      Col("group_id", "ActionListGroupDefID", false, IntType),
      Col("action_event_id", "ActionEventDefID", true, IntType),
      Col("document_type_id", "DocumentTypeID", true, IntType)
    ];
    AffectFieldsColumns();
    AllColumnsAppend(AffectFields, extra);
    var fs := TriggerTable.fields;
    assert fs == AffectFields + extra;
    assert fs[9] == extra[1];
    ScalarEntry(TriggerTable, row, 9);
  }

  /** Every loaded action-email row is filed under its action_id, and its task never
      fails to parse once the column is present and not NULL. */
  lemma ActionEmailKey(row: Row)
    requires CreateFromDb(ActionEmailTable.fields, row).Ok?
    ensures var rec := CreateFromDb(ActionEmailTable.fields, row).value;
      "action_id" in rec && Entry(ActionEmailTable, row) == Ok((Scalar(rec["action_id"]), rec))
  {
    var fs := ActionEmailTable.fields;
    assert AllColumns(fs);
    assert fs[0].name == "action_id";
    FieldInRecord(fs, row, 0);
  }

  /** An ActionPartnerAddTypeID other than 1 or 2 makes loading the row fail. */
  lemma GroupActionPartnerRestrictionRejects(row: Row)
    requires "ActionPartnerAddTypeID" in row
    requires !EqualsInt(row["ActionPartnerAddTypeID"], 1) && !EqualsInt(row["ActionPartnerAddTypeID"], 2)
    ensures Entry(GroupActionPartnerRestrictionTable, row).Err?
  {
    var fs := GroupActionPartnerRestrictionTable.fields;
    ColumnFieldsOfAll(fs);
    assert ParseCol(fs[3], row).Err?;
    CreateFromDbFields(fs, row);
  }

  // ---------------------------------------------------------------------------
  // typed records
  // ---------------------------------------------------------------------------

  /** The Affect columns; the float offset is kept as its repr. */
  datatype AffectCols = AffectCols(
    affectedGroupId: Option<int>, affectedActionId: Option<int>, affectedTask: Option<Task>,
    offset: Option<string>, autoComplete: Option<bool>,
    createdActionGroupId: Option<int>, createdActionActionId: Option<int>, createdGroupId: Option<int>)

  datatype GroupActionAffect = GroupActionAffect(cols: AffectCols, task: Option<Task>, groupId: int, actionId: int)

  datatype Trigger = Trigger(cols: AffectCols, externalActionId: int, groupId: int,
                             actionEventId: Option<int>, documentTypeId: Option<int>)

  datatype ActionEmail = ActionEmail(actionId: int, emailId: int, task: Task)

  datatype ActionRow = ActionRow(id: int, name: string, displayName: string, description: Option<string>, hidden: bool)

  datatype GroupRow = GroupRow(id: int, name: string)

  datatype GroupAction = GroupAction(groupId: int, actionId: int, dynamic: bool)

  datatype ActionListRow = ActionListRow(id: int, name: string)

  datatype ActionListGroups = ActionListGroups(id: int, groupId: int, order: int, optional: bool)

  /** An email template; only the columns the graph reads. */
  datatype EmailRow = EmailRow(id: int, name: string)

  datatype NamedRow = NamedRow(id: int, name: string)

  datatype PartnerTypes = PartnerTypes(id: int, typeId: int)

  datatype PartnerAutoAdds = PartnerAutoAdds(id: int, typeId: int, autoAddId: int, autoAddTypeId: int)

  /** A frozen dataclass: hashable, equal when id and name are. */
  datatype PartnerType = PartnerType(id: int, name: string)

  datatype EmailPartnerRestriction = EmailPartnerRestriction(partnerId: Option<int>, emailId: int, included: bool)

  /** The loaded tables the graph reads. Single tables map the id to the record;
      one-to-many tables map the lookup to the records in fetch order. */
  datatype Models = Models(
    partners: map<int, NamedRow>,
    partnersTypes: map<int, seq<PartnerTypes>>,
    partnersAutoAdds: map<int, seq<PartnerAutoAdds>>,
    partnerTypes: map<int, PartnerType>,
    triggers: map<int, seq<Trigger>>,
    externalActions: map<int, NamedRow>,
    emails: map<int, EmailRow>,
    actionEmails: map<int, seq<ActionEmail>>,
    actionEvents: map<int, NamedRow>,
    documentTypes: map<int, NamedRow>,
    actions: map<int, ActionRow>,
    groupActions: map<int, seq<GroupAction>>,
    groups: map<int, GroupRow>,
    groupActionAffects: map<(int, int), seq<GroupActionAffect>>,
    actionLists: map<int, ActionListRow>,
    actionListGroups: map<int, seq<ActionListGroups>>)

  /** A read of a one-to-many table: a key with no rows reads as the empty list. */
  function Many<K, V>(m: map<K, seq<V>>, k: K): (r: seq<V>)
    ensures k in m ==> r == m[k]
    ensures k !in m ==> r == []
  {
    if k in m then m[k] else []
  }

  // ---------------------------------------------------------------------------
  // placeholder restrictions
  // ---------------------------------------------------------------------------

  /** The restrictions naming a real partner, in order. */
  function Real(s: seq<EmailPartnerRestriction>): seq<EmailPartnerRestriction> {
    if s == [] then []
    else Real(s[..|s| - 1]) + (if s[|s| - 1].partnerId.Some? then [s[|s| - 1]] else [])
  }

  lemma RealStep(s: seq<EmailPartnerRestriction>, j: nat)
    requires j < |s|
    ensures Real(s[..j + 1]) == Real(s[..j]) + (if s[j].partnerId.Some? then [s[j]] else [])
  {
    assert s[..j + 1][..j] == s[..j];
  }

  lemma {:induction false} RealAppend(a: seq<EmailPartnerRestriction>, b: seq<EmailPartnerRestriction>)
    ensures Real(a + b) == Real(a) + Real(b)
  {
    if b != [] {
      var b' := b[..|b| - 1];
      RealAppend(a, b');
      assert (a + b)[..|a + b| - 1] == a + b';
    } else {
      assert a + b == a;
    }
  }

  /** Real keeps exactly the restrictions with a partner. */
  lemma {:induction false} RealMembers(s: seq<EmailPartnerRestriction>)
    ensures forall x :: x in Real(s) <==> x in s && x.partnerId.Some?
  {
    if s != [] {
      RealMembers(s[..|s| - 1]);
      assert s == s[..|s| - 1] + [s[|s| - 1]];
    }
  }

  /** A list without placeholders is left as it is, and only such a list is. */
  lemma {:induction false} RealUnchanged(s: seq<EmailPartnerRestriction>)
    ensures Real(s) == s <==> forall i :: 0 <= i < |s| ==> s[i].partnerId.Some?
  {
    if s != [] {
      var p := s[..|s| - 1];
      RealUnchanged(p);
      RealShorter(p);
      if s[|s| - 1].partnerId.None? {
        assert |Real(s)| < |s|;
      } else if Real(p) == p {
        assert forall i :: 0 <= i < |s| ==> s[i].partnerId.Some? by {
          forall i | 0 <= i < |s| ensures s[i].partnerId.Some? {
            if i < |s| - 1 { assert s[i] == p[i]; }
          }
        }
      } else {
        assert Real(s) == Real(p) + [s[|s| - 1]];
        var i :| 0 <= i < |p| && p[i].partnerId.None?;
        assert s[i] == p[i];
      }
    }
  }

  lemma {:induction false} RealShorter(s: seq<EmailPartnerRestriction>)
    ensures |Real(s)| <= |s|
  {
    if s != [] {
      RealShorter(s[..|s| - 1]);
    }
  }

  /** list.remove: drops the first element equal to x. */
  function RemoveFirst(s: seq<EmailPartnerRestriction>, x: EmailPartnerRestriction): (r: seq<EmailPartnerRestriction>)
    requires x in s
    ensures |r| == |s| - 1
  {
    if s[0] == x then s[1..] else [s[0]] + RemoveFirst(s[1..], x)
  }

  lemma {:induction false} RemoveFirstAfter(a: seq<EmailPartnerRestriction>, b: seq<EmailPartnerRestriction>)
    requires b != [] && b[0] !in a
    ensures RemoveFirst(a + b, b[0]) == a + b[1..]
  {
    if a != [] {
      assert (a + b)[1..] == a[1..] + b;
      RemoveFirstAfter(a[1..], b);
    } else {
      assert a + b == b;
    }
  }

  /** One turn of the inner loop: removing a placeholder from the list, or keeping a
      real partner, advances the list by one element of the copy. */
  lemma DropStep(copy: seq<EmailPartnerRestriction>, j: nat, r: seq<EmailPartnerRestriction>)
    requires j < |copy| && r == Real(copy[..j]) + copy[j..]
    ensures copy[j] in r
    ensures copy[j].partnerId.None? ==> RemoveFirst(r, copy[j]) == Real(copy[..j + 1]) + copy[j + 1..]
    ensures copy[j].partnerId.Some? ==> r == Real(copy[..j + 1]) + copy[j + 1..]
  {
    var p := copy[j];
    RealStep(copy, j);
    assert copy[j..] == [p] + copy[j + 1..];
    if p.partnerId.None? {
      RealMembers(copy[..j]);
      RemoveFirstAfter(Real(copy[..j]), copy[j..]);
    } else {
      Seqs.Regroup(Real(copy[..j]), [p], copy[j + 1..]);
    }
  }

  /** The table after the loop in Models.__init__: placeholders removed from every list,
      and the emails whose list ends up empty removed from the table. */
  function WithoutPlaceholders(m: map<int, seq<EmailPartnerRestriction>>): map<int, seq<EmailPartnerRestriction>> {
    map k | k in m && Real(m[k]) != [] :: Real(m[k])
  }

  /** Only real partners remain, no email keeps an empty list, and an email stays exactly
      when it had at least one real partner. */
  lemma WithoutPlaceholdersMeaning(m: map<int, seq<EmailPartnerRestriction>>)
    ensures forall k, i :: k in WithoutPlaceholders(m) && 0 <= i < |WithoutPlaceholders(m)[k]| ==>
              WithoutPlaceholders(m)[k][i].partnerId.Some?
    ensures forall k :: k in WithoutPlaceholders(m) ==> WithoutPlaceholders(m)[k] != []
    ensures forall k :: k in WithoutPlaceholders(m) <==>
              k in m && exists i :: 0 <= i < |m[k]| && m[k][i].partnerId.Some?
  {
    forall k | k in m ensures Real(m[k]) != [] <==> exists i :: 0 <= i < |m[k]| && m[k][i].partnerId.Some? {
      RealMembers(m[k]);
      if Real(m[k]) != [] {
        assert Real(m[k])[0] in m[k];
      } else {
        forall i | 0 <= i < |m[k]| ensures m[k][i].partnerId.None? {
          assert m[k][i] in m[k];
        }
      }
    }
    forall k, i | k in WithoutPlaceholders(m) && 0 <= i < |WithoutPlaceholders(m)[k]|
      ensures WithoutPlaceholders(m)[k][i].partnerId.Some?
    {
      RealMembers(m[k]);
      assert Real(m[k])[i] in Real(m[k]);
    }
  }

  /** Cleaning a cleaned table changes nothing. */
  lemma WithoutPlaceholdersIdempotent(m: map<int, seq<EmailPartnerRestriction>>)
    ensures WithoutPlaceholders(WithoutPlaceholders(m)) == WithoutPlaceholders(m)
  {
    var w := WithoutPlaceholders(m);
    WithoutPlaceholdersMeaning(m);
    forall k | k in w ensures Real(w[k]) == w[k] {
      RealUnchanged(w[k]);
    }
  }

  /** The emails of `order` that keep a real partner, in order. */
  function Surviving(order: seq<int>, m: map<int, seq<EmailPartnerRestriction>>): seq<int> {
    if order == [] then []
    else
      var last := order[|order| - 1];
      Surviving(order[..|order| - 1], m) + (if last in m && Real(m[last]) != [] then [last] else [])
  }

  lemma {:induction false} SurvivingNext(order: seq<int>, m: map<int, seq<EmailPartnerRestriction>>, i: nat)
    requires i < |order|
    ensures Surviving(order[..i + 1], m) ==
      Surviving(order[..i], m) + (if order[i] in m && Real(m[order[i]]) != [] then [order[i]] else [])
  {
    assert order[..i + 1][..i] == order[..i];
  }

  /** The table half-way through the loop: the emails still to visit untouched, the
      others cleaned. */
  function Partly(m: map<int, seq<EmailPartnerRestriction>>, todo: seq<int>): map<int, seq<EmailPartnerRestriction>> {
    map k | k in m && (k in todo || Real(m[k]) != []) :: if k in todo then m[k] else Real(m[k])
  }

  /** dict deletion: the key leaves the order. */
  function RemoveKey(order: seq<int>, k: int): seq<int> {
    if order == [] then []
    else (if order[0] == k then [] else [order[0]]) + RemoveKey(order[1..], k)
  }

  lemma {:induction false} RemoveKeyAbsent(s: seq<int>, k: int)
    requires k !in s
    ensures RemoveKey(s, k) == s
  {
    if s != [] {
      RemoveKeyAbsent(s[1..], k);
    }
  }

  /** In a list without repeats, the element at i occurs neither before nor after i. */
  lemma DistinctAt(items: seq<int>, i: nat)
    requires i < |items| && Seqs.NoDuplicates(items)
    ensures items[i] !in items[..i] && items[i] !in items[i + 1..]
  {
    forall j | 0 <= j < i ensures items[..i][j] != items[i] {
      assert items[..i][j] == items[j];
    }
    var after := items[i + 1..];
    forall j | 0 <= j < |after| ensures after[j] != items[i] {
      assert after[j] == items[i + 1 + j];
    }
  }

  lemma {:induction false} RemoveKeyMiddle(a: seq<int>, b: seq<int>, k: int)
    requires k !in a && k !in b
    ensures RemoveKey(a + ([k] + b), k) == a + b
  {
    if a == [] {
      assert a + ([k] + b) == [k] + b;
      assert ([k] + b)[1..] == b;
      RemoveKeyAbsent(b, k);
    } else {
      assert (a + ([k] + b))[1..] == a[1..] + ([k] + b);
      RemoveKeyMiddle(a[1..], b, k);
      assert a + b == [a[0]] + (a[1..] + b);
    }
  }

  /** Visiting one more email of the snapshot: its cleaned list replaces it, or it goes
      when the list is empty. */
  lemma VisitStep(m: map<int, seq<EmailPartnerRestriction>>, items: seq<int>, i: nat,
                  table: map<int, seq<EmailPartnerRestriction>>, partners: seq<EmailPartnerRestriction>)
    requires i < |items| && Seqs.NoDuplicates(items) && items[i] in m
    requires table == Partly(m, items[i..]) && partners == Real(m[items[i]])
    ensures items[i] in table && table[items[i]] == m[items[i]]
    ensures Partly(m, items[i + 1..]) ==
      if |partners| == 0 then table - {items[i]} else table[items[i] := partners]
  {
    assert items[i..] == [items[i]] + items[i + 1..];
    DistinctAt(items, i);
  }

  /** The order after a visit: a deleted email leaves it. */
  lemma OrderStep(m: map<int, seq<EmailPartnerRestriction>>, items: seq<int>, i: nat)
    requires i < |items| && Seqs.NoDuplicates(items) && items[i] in m
    ensures var k := items[i]; var o := Surviving(items[..i], m) + items[i..];
      Surviving(items[..i + 1], m) + items[i + 1..] == if Real(m[k]) == [] then RemoveKey(o, k) else o
  {
    var k := items[i];
    var sv := Surviving(items[..i], m);
    SurvivingNext(items, m, i);
    assert items[i..] == [k] + items[i + 1..];
    if Real(m[k]) == [] {
      DistinctAt(items, i);
      SurvivingMembers(items[..i], m);
      assert k !in sv && k !in items[i + 1..];
      RemoveKeyMiddle(sv, items[i + 1..], k);
      assert Surviving(items[..i + 1], m) == sv;
    } else {
      assert Surviving(items[..i + 1], m) == sv + [k];
      Seqs.Regroup(sv, [k], items[i + 1..]);
    }
  }

  /** The email_partner_restrictions attribute Models.__init__ cleans in place: the table
      and the insertion order of its keys. */
  class EmailPartnerRestrictions {
    var byEmail: map<int, seq<EmailPartnerRestriction>>
    var order: seq<int>

    ghost predicate Valid()
      reads this
    {
      Seqs.NoDuplicates(order) && forall k :: k in byEmail <==> k in order
    }

    constructor (loaded: map<int, seq<EmailPartnerRestriction>>, order: seq<int>)
      requires Seqs.NoDuplicates(order) && forall k :: k in loaded <==> k in order
      ensures Valid() && byEmail == loaded && this.order == order
    {
      byEmail := loaded;
      this.order := order;
    }

    /** The inner loop: removes each placeholder, walking a copy of the list. */
    static method DropFromList(partners: seq<EmailPartnerRestriction>) returns (r: seq<EmailPartnerRestriction>)
      ensures r == Real(partners)
    {
      r := partners;
      var copy := partners;
      var j := 0;
      while j < |copy|
        invariant 0 <= j <= |copy|
        invariant r == Real(copy[..j]) + copy[j..]
      {
        var p := copy[j];
        DropStep(copy, j, r);
        if p.partnerId.None? {
          r := RemoveFirst(r, p);
        }
        j := j + 1;
      }
      assert copy[..j] == copy;
    }

    /** Removes the placeholder rows (no partner) from each list, then the emails whose
        list became empty, visiting the emails in a snapshot of the key order. */
    method DropPlaceholders()
      requires Valid()
      modifies this
      ensures Valid()
      ensures byEmail == WithoutPlaceholders(old(byEmail))
      ensures order == Surviving(old(order), old(byEmail))
    {
      var table, ord := byEmail, order;
      ghost var m := table;
      var items := ord;
      var i := 0;
      assert items[i..] == items;
      assert forall k :: k in m <==> k in items;
      PartlyAll(m, items);
      while i < |items|
        invariant 0 <= i <= |items|
        invariant table == Partly(m, items[i..])
        invariant ord == Surviving(items[..i], m) + items[i..]
      {
        var emailId := items[i];
        assert emailId in items[i..];
        var partners := DropFromList(table[emailId]);
        VisitStep(m, items, i, table, partners);
        OrderStep(m, items, i);
        if |partners| == 0 {
          table := table - {emailId};
          ord := RemoveKey(ord, emailId);
        } else {
          table := table[emailId := partners];
        }
        i := i + 1;
      }
      assert items[..i] == items && items[i..] == [];
      byEmail, order := table, ord;
      Finished(m, items);
    }
  }

  lemma {:induction false} SurvivingMembers(order: seq<int>, m: map<int, seq<EmailPartnerRestriction>>)
    ensures forall k :: k in Surviving(order, m) <==> k in order && k in m && Real(m[k]) != []
  {
    if order != [] {
      var p := order[..|order| - 1];
      SurvivingMembers(p, m);
      assert order == p + [order[|order| - 1]];
    }
  }

  lemma {:induction false} SurvivingDistinct(order: seq<int>, m: map<int, seq<EmailPartnerRestriction>>)
    requires Seqs.NoDuplicates(order)
    ensures Seqs.NoDuplicates(Surviving(order, m))
  {
    if order != [] {
      var n := |order| - 1;
      var p := order[..n];
      assert Seqs.NoDuplicates(p) by {
        forall i, j | 0 <= i < j < |p| ensures p[i] != p[j] {
          assert p[i] == order[i] && p[j] == order[j];
        }
      }
      SurvivingDistinct(p, m);
      DistinctAt(order, n);
      SurvivingMembers(p, m);
    }
  }

  /** After the last email: the cleaned table, keyed by the surviving order. */
  lemma Finished(m: map<int, seq<EmailPartnerRestriction>>, items: seq<int>)
    requires Seqs.NoDuplicates(items) && forall k :: k in m <==> k in items
    ensures Partly(m, []) == WithoutPlaceholders(m)
    ensures Seqs.NoDuplicates(Surviving(items, m))
    ensures forall k :: k in WithoutPlaceholders(m) <==> k in Surviving(items, m)
  {
    SurvivingDistinct(items, m);
    SurvivingMembers(items, m);
  }

  lemma PartlyAll(m: map<int, seq<EmailPartnerRestriction>>, items: seq<int>)
    requires forall k :: k in m ==> k in items
    ensures Partly(m, items) == m
  {
    forall k | k in m ensures k in Partly(m, items) && Partly(m, items)[k] == m[k] {
    }
    assert Partly(m, items).Keys == m.Keys;
  }
}
