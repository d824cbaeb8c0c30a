/** database.py: the older classifier that reads affect rows column by column, decides
    which kinds of affect each row is, collects the actions the rows depend on, and
    keeps one vertex per key while dependencies are wired up. */
module Database {
  import opened Wrappers
  import opened Seqs
  import opened Db

  // ---------------------------------------------------------------------------
  // affect classification
  // ---------------------------------------------------------------------------

  datatype AffectType =
    | DisplayName | CreateAction | CreateActionGroup | AffectsAction | SetValue | SendXml
    | CreateRecordingDocument | CreateCurative | MarkCurativeInternallyCleared
  {
    /** The IntEnum value. */
    function Number(): nat {
      match this
      case DisplayName => 0
      case CreateAction => 1
      case CreateActionGroup => 2
      case AffectsAction => 3
      case SetValue => 4
      case SendXml => 5
      case CreateRecordingDocument => 6
      case CreateCurative => 7
      case MarkCurativeInternallyCleared => 8
    }
  }

  /** AffectColumnOperator: AND applies `all`, OR applies `any`. */
  datatype Operator = And | Or

  datatype AffectColumns = AffectColumns(required: seq<string>, optional: Option<seq<string>>, requiredOperator: Operator)

  /** `columns.get(column)`: None for a column the row lacks. */
  function Get(columns: Row, column: string): Value {
    if column in columns then columns[column] else Null
  }

  function AllTruthy(columns: Row, required: seq<string>): bool {
    if required == [] then true
    else Truthy(Get(columns, required[0])) && AllTruthy(columns, required[1..])
  }

  function AnyTruthy(columns: Row, required: seq<string>): bool {
    if required == [] then false
    else Truthy(Get(columns, required[0])) || AnyTruthy(columns, required[1..])
  }

  lemma {:induction false} AllTruthyMeaning(columns: Row, required: seq<string>)
    ensures AllTruthy(columns, required) <==> forall i :: 0 <= i < |required| ==> Truthy(Get(columns, required[i]))
  {
    if required != [] {
      AllTruthyMeaning(columns, required[1..]);
      assert forall i :: 0 < i < |required| ==> required[1..][i - 1] == required[i];
    }
  }

  lemma {:induction false} AnyTruthyMeaning(columns: Row, required: seq<string>)
    ensures AnyTruthy(columns, required) <==> exists i :: 0 <= i < |required| && Truthy(Get(columns, required[i]))
  {
    if required != [] {
      AnyTruthyMeaning(columns, required[1..]);
      assert forall i :: 0 < i < |required| ==> required[1..][i - 1] == required[i];
    }
  }

  /** AffectColumns.is_affect: `all` over the required columns with AND, `any` with OR. */
  function IsAffect(columns: Row, required: seq<string>, op: Operator): bool {
    if op == And then AllTruthy(columns, required) else AnyTruthy(columns, required)
  }

  /** With AND every required column is truthy, with OR some is; a column the row lacks
      counts as falsy. */
  lemma IsAffectMeaning(columns: Row, required: seq<string>, op: Operator)
    ensures op == And ==> (IsAffect(columns, required, op) <==> forall c :: c in required ==> c in columns && Truthy(columns[c]))
    ensures op == Or ==> (IsAffect(columns, required, op) <==> exists c :: c in required && c in columns && Truthy(columns[c]))
  {
    AllTruthyMeaning(columns, required);
    AnyTruthyMeaning(columns, required);
    if op == And && !IsAffect(columns, required, op) {
      var i :| 0 <= i < |required| && !Truthy(Get(columns, required[i]));
      assert required[i] in required;
    }
    if op == Or && IsAffect(columns, required, op) {
      var i :| 0 <= i < |required| && Truthy(Get(columns, required[i]));
      assert required[i] in required;
    }
  }

  /** AffectTypeToAffectColumnsMapping, in declaration order. */
  const AffectMapping: seq<(AffectType, AffectColumns)> := [
    (DisplayName, AffectColumns(["DisplayName"], None, And)),
    (CreateAction, AffectColumns(["CreateActionActionListGroupDefID", "CreateActionActionDefID"], None, And)),
    (CreateActionGroup, AffectColumns(["CreateGroupActionListGroupDefID", "CreateGroupActionListGroupDefActionTypeID"], None, And)),
    (AffectsAction, AffectColumns(["AffectActionListGroupDefID", "AffectActionDefID", "AffectActionTypeID"],
                                  Some(["AffectOverwrites", "AffectOffset", "AffectAutoComplete"]), And)),
    (SetValue, AffectColumns(["AffectResWareActionDefValuesID"], None, And)),
    (SendXml, AffectColumns(["XMLSchemaID"], Some(["XMLToPartnerTypeID", "ActionEventDefID"]), And)),
    (CreateRecordingDocument, AffectColumns(["RecordingDocumentTypeID"], None, And)),
    (CreateCurative, AffectColumns(["CreateTitleReviewTypeID", "CreatePolicyCurativeTypeID"],
                                   Some(["CreateTitleReviewTypeOnlyIfNotExists", "CreatePolicyCurativeTypeOnlyIfNotExists"]), Or)),
    (MarkCurativeInternallyCleared, AffectColumns(["ClearTitleReviewTypeID", "ClearPolicyCurativeTypeID"], None, Or))
  ]

  predicate Matches(columns: Row, cols: AffectColumns) {
    IsAffect(columns, cols.required, cols.requiredOperator)
  }

  /** _get_affect_types: the types whose columns the row satisfies, in mapping order. */
  function GetAffectTypes(columns: Row, mapping: seq<(AffectType, AffectColumns)>): seq<AffectType>
  {
    if mapping == [] then []
    else (if Matches(columns, mapping[0].1) then [mapping[0].0] else []) + GetAffectTypes(columns, mapping[1..])
  }

  /** A type is returned iff some mapping entry of that type matches the row; at most one
      type per entry. */
  lemma {:induction false} GetAffectTypesMembers(columns: Row, mapping: seq<(AffectType, AffectColumns)>)
    ensures |GetAffectTypes(columns, mapping)| <= |mapping|
    ensures forall t :: t in GetAffectTypes(columns, mapping) <==>
              exists i :: 0 <= i < |mapping| && mapping[i].0 == t && Matches(columns, mapping[i].1)
  {
    if mapping != [] {
      GetAffectTypesMembers(columns, mapping[1..]);
      assert forall i :: 0 <= i < |mapping| - 1 ==> mapping[1..][i] == mapping[i + 1];
    }
  }

  /** Types listed in strictly increasing enum value. */
  predicate Increasing(ts: seq<AffectType>) {
    forall i, j :: 0 <= i < j < |ts| ==> ts[i].Number() < ts[j].Number()
  }

  predicate IncreasingMapping(mapping: seq<(AffectType, AffectColumns)>) {
    forall i, j :: 0 <= i < j < |mapping| ==> mapping[i].0.Number() < mapping[j].0.Number()
  }

  lemma AffectMappingIncreasing()
    ensures IncreasingMapping(AffectMapping)
  {
    forall i, j | 0 <= i < j < |AffectMapping| ensures AffectMapping[i].0.Number() < AffectMapping[j].0.Number() {
      assert AffectMapping[i].0.Number() == i;
      assert AffectMapping[j].0.Number() == j;
    }
  }

  lemma {:induction false} GetAffectTypesOrdered(columns: Row, mapping: seq<(AffectType, AffectColumns)>)
    requires IncreasingMapping(mapping)
    ensures Increasing(GetAffectTypes(columns, mapping))
  {
    if mapping != [] {
      var rest := GetAffectTypes(columns, mapping[1..]);
      GetAffectTypesOrdered(columns, mapping[1..]);
      GetAffectTypesMembers(columns, mapping[1..]);
      forall k | 0 <= k < |rest| ensures mapping[0].0.Number() < rest[k].Number() {
        assert rest[k] in rest;
        var i :| 0 <= i < |mapping[1..]| && mapping[1..][i].0 == rest[k] && Matches(columns, mapping[1..][i].1);
        assert mapping[1..][i] == mapping[i + 1];
      }
    }
  }

  /** A row's affect types come out in declaration order, each at most once: so a row
      may match several types, or none. */
  lemma AffectTypesInOrder(columns: Row)
    ensures Increasing(GetAffectTypes(columns, AffectMapping))
    ensures forall t :: t in GetAffectTypes(columns, AffectMapping) <==>
              exists i :: 0 <= i < |AffectMapping| && AffectMapping[i].0 == t && Matches(columns, AffectMapping[i].1)
  {
    AffectMappingIncreasing();
    GetAffectTypesOrdered(columns, AffectMapping);
    GetAffectTypesMembers(columns, AffectMapping);
  }

  // ---------------------------------------------------------------------------
  // action dependencies
  // ---------------------------------------------------------------------------

  /** `affect[column]`, which raises KeyError (named by the column) when the row lacks it. */
  function Column(row: Row, column: string): (r: Result<Value, string>)
    ensures r.Ok? <==> column in row
    ensures r.Ok? ==> r.value == row[column]
    ensures r.Err? ==> r.error == column
  {
    if column in row then Ok(row[column]) else Err(column)
  }

  /** `affect[c0] or affect[c1] or ... or affect[cn]`: the first truthy value, else the
      last; a column is read only when every earlier one was falsy. */
  function OrChain(row: Row, cols: seq<string>): Result<Value, string>
    requires |cols| >= 1
  {
    var v :- Column(row, cols[0]);
    if Truthy(v) || |cols| == 1 then Ok(v) else OrChain(row, cols[1..])
  }

  /** Every column before index i is present and falsy. */
  predicate FalsyBefore(row: Row, cols: seq<string>, i: int)
    requires i <= |cols|
  {
    forall j :: 0 <= j < i ==> cols[j] in row && !Truthy(row[cols[j]])
  }

  /** An or-chain reads the columns up to the first truthy one: it is that one's value,
      the last column's value when none is truthy, or a KeyError for the first absent
      column it reaches. */
  lemma {:induction false} OrChainFirstTruthy(row: Row, cols: seq<string>)
    requires |cols| >= 1
    ensures OrChain(row, cols).Ok? <==> exists i :: 0 <= i < |cols| && cols[i] in row && FalsyBefore(row, cols, i) &&
                                               (Truthy(row[cols[i]]) || i == |cols| - 1)
    ensures OrChain(row, cols).Ok? ==> exists i :: 0 <= i < |cols| && cols[i] in row && FalsyBefore(row, cols, i) &&
                                               (Truthy(row[cols[i]]) || i == |cols| - 1) && OrChain(row, cols).value == row[cols[i]]
    ensures OrChain(row, cols).Err? ==> exists i :: 0 <= i < |cols| && cols[i] !in row && FalsyBefore(row, cols, i) &&
                                               OrChain(row, cols).error == cols[i]
  {
    var r := OrChain(row, cols);
    if cols[0] !in row {
      assert FalsyBefore(row, cols, 0);
      forall i | 0 <= i < |cols| && cols[i] in row && FalsyBefore(row, cols, i)
        ensures i != 0 ==> false
      {
      }
    } else if Truthy(row[cols[0]]) || |cols| == 1 {
      assert FalsyBefore(row, cols, 0);
      forall i | 0 < i < |cols| ensures !FalsyBefore(row, cols, i) {
        assert !(cols[0] in row && !Truthy(row[cols[0]])) || |cols| == 1;
      }
    } else {
      var tail := cols[1..];
      OrChainFirstTruthy(row, tail);
      assert r == OrChain(row, tail);
      forall i | 1 <= i <= |cols| ensures FalsyBefore(row, cols, i) <==> FalsyBefore(row, tail, i - 1) {
        if FalsyBefore(row, tail, i - 1) {
          forall j | 0 <= j < i ensures cols[j] in row && !Truthy(row[cols[j]]) {
            if j > 0 {
              assert cols[j] == tail[j - 1];
            }
          }
        }
        if FalsyBefore(row, cols, i) {
          forall j | 0 <= j < i - 1 ensures tail[j] in row && !Truthy(row[tail[j]]) {
            assert tail[j] == cols[j + 1];
          }
        }
      }
      if r.Ok? {
        var k :| 0 <= k < |tail| && tail[k] in row && FalsyBefore(row, tail, k) &&
                 (Truthy(row[tail[k]]) || k == |tail| - 1) && r.value == row[tail[k]];
        assert cols[k + 1] == tail[k];
      } else {
        var k :| 0 <= k < |tail| && tail[k] !in row && FalsyBefore(row, tail, k) && r.error == tail[k];
        assert cols[k + 1] == tail[k];
      }
      forall i | 0 <= i < |cols| && FalsyBefore(row, cols, i) && i > 0 ensures cols[i] == tail[i - 1] {
      }
    }
  }

  const GroupColumns: seq<string> := ["CreateActionActionListGroupDefID", "AffectActionListGroupDefID", "CreateGroupActionListGroupDefID"]
  const ActionColumns: seq<string> := ["CreateActionActionDefID", "AffectActionDefID"]

  /** The (group, action) pair an affect depends on: the or-chain over the group columns,
      then the or-chain over the action columns with None when both are falsy. */
  function DependencyOf(row: Row): Result<(Value, Value), string> {
    var group :- OrChain(row, GroupColumns);
    var action :- OrChain(row, ActionColumns);
    Ok((group, if Truthy(action) then action else Null))
  }

  /** A CREATE_ACTION affect depends on its create-action group and action. */
  lemma CreateActionDependency(row: Row)
    requires "CreateActionActionListGroupDefID" in row && Truthy(row["CreateActionActionListGroupDefID"])
    requires "CreateActionActionDefID" in row && Truthy(row["CreateActionActionDefID"])
    ensures CreateAction in GetAffectTypes(row, AffectMapping)
    ensures DependencyOf(row) == Ok((row["CreateActionActionListGroupDefID"], row["CreateActionActionDefID"]))
  {
    GetAffectTypesMembers(row, AffectMapping);
    var cols := AffectMapping[1].1.required;
    IsAffectMeaning(row, cols, And);
    assert Matches(row, AffectMapping[1].1);
    assert GroupColumns[0] == cols[0] && ActionColumns[0] == cols[1];
  }

  predicate IsDependencyType(t: AffectType) {
    t == CreateAction || t == AffectsAction || t == CreateActionGroup
  }

  /** Some type in the list is one the dependency pair is recorded for. */
  function AnyDependencyType(ts: seq<AffectType>): bool {
    if ts == [] then false else IsDependencyType(ts[0]) || AnyDependencyType(ts[1..])
  }

  lemma {:induction false} AnyDependencyTypeExists(ts: seq<AffectType>)
    ensures AnyDependencyType(ts) <==> exists i :: 0 <= i < |ts| && IsDependencyType(ts[i])
  {
    if ts != [] {
      AnyDependencyTypeExists(ts[1..]);
      assert forall i :: 0 < i < |ts| ==> ts[1..][i - 1] == ts[i];
    }
  }

  predicate HasDependency(row: Row, mapping: seq<(AffectType, AffectColumns)>) {
    AnyDependencyType(GetAffectTypes(row, mapping))
  }

  /** _identify_affect_action_dependencies: the set of the pairs of every row with a
      CREATE_ACTION, AFFECTS_ACTION or CREATE_ACTION_GROUP type. */
  function DependenciesOf(affects: seq<Row>, mapping: seq<(AffectType, AffectColumns)>): Result<set<(Value, Value)>, string>
  {
    if affects == [] then Ok({})
    else
      var n := |affects| - 1;
      var prev :- DependenciesOf(affects[..n], mapping);
      if HasDependency(affects[n], mapping) then
        var p :- DependencyOf(affects[n]);
        Ok(prev + {p})
      else Ok(prev)
  }

  /** The collection fails iff a row with a dependency type lacks a column its pair
      reads. */
  lemma {:induction false} DependenciesOfOk(affects: seq<Row>, mapping: seq<(AffectType, AffectColumns)>)
    ensures DependenciesOf(affects, mapping).Ok? <==>
              forall i :: 0 <= i < |affects| && HasDependency(affects[i], mapping) ==> DependencyOf(affects[i]).Ok?
  {
    if affects != [] {
      var n := |affects| - 1;
      var a := affects[..n];
      DependenciesOfOk(a, mapping);
      if DependenciesOf(affects, mapping).Ok? {
        assert DependenciesOf(a, mapping).Ok?;
        forall i | 0 <= i < |affects| && HasDependency(affects[i], mapping)
          ensures DependencyOf(affects[i]).Ok?
        {
          if i < n {
            assert a[i] == affects[i];
          }
        }
      } else if DependenciesOf(a, mapping).Ok? {
        assert HasDependency(affects[n], mapping) && DependencyOf(affects[n]).Err?;
      } else {
        var i :| 0 <= i < n && HasDependency(a[i], mapping) && DependencyOf(a[i]).Err?;
        assert affects[i] == a[i];
      }
    }
  }

  /** Row i of the list has a dependency type and p is its pair. */
  predicate PairAt(affects: seq<Row>, mapping: seq<(AffectType, AffectColumns)>, i: int, p: (Value, Value)) {
    0 <= i < |affects| && HasDependency(affects[i], mapping) && DependencyOf(affects[i]) == Ok(p)
  }

  lemma PairAtPrefix(affects: seq<Row>, mapping: seq<(AffectType, AffectColumns)>, n: nat, i: int, p: (Value, Value))
    requires n <= |affects| && i < n
    ensures PairAt(affects[..n], mapping, i, p) <==> PairAt(affects, mapping, i, p)
  {
    if 0 <= i {
      assert affects[..n][i] == affects[i];
    }
  }

  /** The rows' pairs are collected without loss or addition: the result holds exactly
      the pair of each row with a dependency type. */
  lemma DependenciesOfMembers(affects: seq<Row>, mapping: seq<(AffectType, AffectColumns)>)
    requires DependenciesOf(affects, mapping).Ok?
    ensures forall p :: p in DependenciesOf(affects, mapping).value <==> exists i :: PairAt(affects, mapping, i, p)
  {
    DependenciesOfSound(affects, mapping);
    DependenciesOfComplete(affects, mapping);
  }

  /** Every collected pair is the pair of some row with a dependency type. */
  lemma {:induction false} DependenciesOfSound(affects: seq<Row>, mapping: seq<(AffectType, AffectColumns)>)
    requires DependenciesOf(affects, mapping).Ok?
    ensures forall p :: p in DependenciesOf(affects, mapping).value ==> exists i :: PairAt(affects, mapping, i, p)
  {
    if affects != [] {
      var n := |affects| - 1;
      DependenciesOfLast(affects, mapping);
      DependenciesOfSound(affects[..n], mapping);
      var prev := DependenciesOf(affects[..n], mapping).value;
      var r := DependenciesOf(affects, mapping).value;
      forall p | p in r ensures exists i :: PairAt(affects, mapping, i, p) {
        if p in prev {
          var i :| PairAt(affects[..n], mapping, i, p);
          PairAtPrefix(affects, mapping, n, i, p);
        } else {
          assert PairAt(affects, mapping, n, p);
        }
      }
    }
  }

  /** The pair of every row with a dependency type is collected. */
  lemma {:induction false} DependenciesOfComplete(affects: seq<Row>, mapping: seq<(AffectType, AffectColumns)>)
    requires DependenciesOf(affects, mapping).Ok?
    ensures forall p, i :: PairAt(affects, mapping, i, p) ==> p in DependenciesOf(affects, mapping).value
  {
    if affects != [] {
      var n := |affects| - 1;
      DependenciesOfLast(affects, mapping);
      DependenciesOfComplete(affects[..n], mapping);
      var prev := DependenciesOf(affects[..n], mapping).value;
      var r := DependenciesOf(affects, mapping).value;
      forall p, i | PairAt(affects, mapping, i, p) ensures p in r {
        if i < n {
          PairAtPrefix(affects, mapping, n, i, p);
          assert p in prev;
        } else {
          assert i == n && PairAt(affects, mapping, n, p);
        }
      }
    }
  }

  lemma DependenciesOfLast(affects: seq<Row>, mapping: seq<(AffectType, AffectColumns)>)
    requires affects != [] && DependenciesOf(affects, mapping).Ok?
    ensures var n := |affects| - 1;
            DependenciesOf(affects[..n], mapping).Ok? &&
            (HasDependency(affects[n], mapping) ==>
               DependencyOf(affects[n]).Ok? &&
               DependenciesOf(affects, mapping).value == DependenciesOf(affects[..n], mapping).value + {DependencyOf(affects[n]).value}) &&
            (!HasDependency(affects[n], mapping) ==> DependenciesOf(affects, mapping).value == DependenciesOf(affects[..n], mapping).value)
  {
  }

  /** The inner loop over one row's affect types: the pair is added once for each
      dependency type, which a set keeps once. */
  method AddForTypes(affect: Row, types: seq<AffectType>, actions: set<(Value, Value)>) returns (r: Result<set<(Value, Value)>, string>)
    ensures AnyDependencyType(types) ==> r == (var p :- DependencyOf(affect); Ok(actions + {p}))
    ensures !AnyDependencyType(types) ==> r == Ok(actions)
  {
    var acc := actions;
    var j := 0;
    while j < |types|
      invariant 0 <= j <= |types|
      invariant AnyDependencyType(types[..j]) ==> DependencyOf(affect).Ok? && acc == actions + {DependencyOf(affect).value}
      invariant !AnyDependencyType(types[..j]) ==> acc == actions
    {
      AnyDependencyTypeExists(types[..j]);
      AnyDependencyTypeExists(types[..j + 1]);
      assert types[..j + 1][j] == types[j];
      assert forall i :: 0 <= i < j ==> types[..j + 1][i] == types[..j][i];
      if IsDependencyType(types[j]) {
        var p := DependencyOf(affect);
        if p.Err? {
          AnyDependencyTypeExists(types);
          assert types[j] == types[j];
          return Err(p.error);
        }
        acc := acc + {p.value};
      }
      j := j + 1;
    }
    assert types[..j] == types;
    return Ok(acc);
  }

  lemma DependenciesOfNext(affects: seq<Row>, mapping: seq<(AffectType, AffectColumns)>, i: nat)
    requires i < |affects|
    ensures DependenciesOf(affects[..i + 1], mapping) ==
      var prev :- DependenciesOf(affects[..i], mapping);
      if HasDependency(affects[i], mapping) then
        var p :- DependencyOf(affects[i]);
        Ok(prev + {p})
      else Ok(prev)
  {
    assert affects[..i + 1][..i] == affects[..i];
  }

  lemma {:induction false} DependenciesOfStops(affects: seq<Row>, mapping: seq<(AffectType, AffectColumns)>, i: nat)
    requires i <= |affects| && DependenciesOf(affects[..i], mapping).Err?
    ensures DependenciesOf(affects, mapping) == Err(DependenciesOf(affects[..i], mapping).error)
    decreases |affects| - i
  {
    if i < |affects| {
      DependenciesOfNext(affects, mapping, i);
      DependenciesOfStops(affects, mapping, i + 1);
    } else {
      assert affects[..i] == affects;
    }
  }

  /** _identify_affect_action_dependencies, loop by loop. */
  method IdentifyAffectActionDependencies(affects: seq<Row>) returns (r: Result<set<(Value, Value)>, string>)
    ensures r == DependenciesOf(affects, AffectMapping)
  {
    var actions: set<(Value, Value)> := {};
    var i := 0;
    assert affects[..0] == [];
    while i < |affects|
      invariant 0 <= i <= |affects|
      invariant DependenciesOf(affects[..i], AffectMapping) == Ok(actions)
    {
      DependenciesOfNext(affects, AffectMapping, i);
      var types := GetAffectTypes(affects[i], AffectMapping);
      var next := AddForTypes(affects[i], types, actions);
      if next.Err? {
        DependenciesOfStops(affects, AffectMapping, i + 1);
        return Err(next.error);
      }
      actions := next.value;
      i := i + 1;
    }
    assert affects[..i] == affects;
    return Ok(actions);
  }

  // ---------------------------------------------------------------------------
  // build_vertices
  // ---------------------------------------------------------------------------

  /** A vertex key: an action's (group, action) pair or an email template's name. */
  datatype VertexKey = Pair(group: Value, action: Value) | Name(name: Value)

  /** The vertex a builder makes for an entity: the entity it was built from and the
      vertices it depends on. */
  class Node {
    const entity: Row
    var dependsOn: set<Node>

    constructor (entity: Row, dependsOn: set<Node>)
      ensures this.entity == entity && this.dependsOn == dependsOn
    {
      this.entity := entity;
      this.dependsOn := dependsOn;
    }
  }

  /** build_vertices: one vertex per key, built on first request. `built` records the
      keys the builder ran for, in order. */
  class VertexCollection {
    var collection: map<VertexKey, Node>
    ghost var built: seq<VertexKey>

    /** The builder ran once for each key of the collection, and for no other key; each
        run built a vertex of its own. */
    ghost predicate Valid()
      reads this
    {
      && NoDuplicates(built)
      && (forall k :: k in collection <==> k in built)
      && (forall k, k' :: k in collection && k' in collection && k != k' ==> collection[k] != collection[k'])
    }

    constructor ()
      ensures Valid() && collection == map[] && built == []
    {
      collection := map[];
      built := [];
    }

    /** get_vertex. */
    method GetVertex(key: VertexKey) returns (v: Option<Node>)
      ensures key in collection <==> v.Some?
      ensures v.Some? ==> v.value == collection[key]
    {
      if key in collection {
        return Some(collection[key]);
      }
      return None;
    }

    /** __call__: the key's vertex, built from the entity on first request; its
        dependencies grow by the given ones. No other vertex changes. */
    method Call(key: VertexKey, entity: Row, dependsOn: set<Node>) returns (v: Node)
      requires Valid()
      modifies this, collection.Values
      ensures Valid()
      ensures key in collection && v == collection[key]
      ensures old(key in collection) ==> v == old(collection[key]) && collection == old(collection) && built == old(built)
      ensures old(key !in collection) ==> fresh(v) && v.entity == entity &&
                                          collection == old(collection)[key := v] && built == old(built) + [key]
      ensures v.dependsOn == old(if key in collection then collection[key].dependsOn else {}) + dependsOn
      ensures forall u :: u in old(collection.Values) && u != v ==> u.dependsOn == old(u.dependsOn)
      ensures forall u :: u in collection.Values ==> u in old(collection.Values) || fresh(u)
    {
      var found := GetVertex(key);
      if found.Some? {
        v := found.value;
      } else {
        v := new Node(entity, dependsOn);
        collection := collection[key := v];
        built := built + [key];
      }
      if dependsOn != {} {
        v.dependsOn := v.dependsOn + dependsOn;
      }
    }
  }

  /** The dependency keys absent from the actions, in order. */
  function Skipped(dependencies: seq<VertexKey>, actions: map<VertexKey, Row>): (r: seq<VertexKey>)
    ensures |r| <= |dependencies|
  {
    if dependencies == [] then []
    else
      var n := |dependencies| - 1;
      Skipped(dependencies[..n], actions) + (if dependencies[n] !in actions then [dependencies[n]] else [])
  }

  /** The skipped keys are exactly the dependencies missing from the actions. */
  lemma {:induction false} SkippedMembers(dependencies: seq<VertexKey>, actions: map<VertexKey, Row>)
    ensures forall k :: k in Skipped(dependencies, actions) <==> k in dependencies && k !in actions
  {
    if dependencies != [] {
      var n := |dependencies| - 1;
      SkippedMembers(dependencies[..n], actions);
      assert dependencies == dependencies[..n] + [dependencies[n]];
    }
  }

  lemma SkippedNext(dependencies: seq<VertexKey>, actions: map<VertexKey, Row>, i: nat)
    requires i < |dependencies|
    ensures Skipped(dependencies[..i + 1], actions) ==
            Skipped(dependencies[..i], actions) + (if dependencies[i] !in actions then [dependencies[i]] else [])
    ensures forall k :: k in dependencies[..i + 1] <==> k in dependencies[..i] || k == dependencies[i]
  {
    assert dependencies[..i + 1][..i] == dependencies[..i];
    assert dependencies[..i + 1] == dependencies[..i] + [dependencies[i]];
  }

  /** Every key of `before` is still there, holding the same vertex. */
  ghost predicate Extends(c: map<VertexKey, Node>, before: map<VertexKey, Node>) {
    forall k :: k in before ==> k in c && c[k] == before[k]
  }

  /** A vertex once given to a key stays that key's. */
  ghost predicate Keeps(vs: VertexCollection, before: map<VertexKey, Node>)
    reads vs
  {
    Extends(vs.collection, before)
  }

  /** Each key's vertex's dependencies. */
  ghost function Deps(vs: VertexCollection): map<VertexKey, set<Node>>
    reads vs, vs.collection.Values
  {
    map k | k in vs.collection :: vs.collection[k].dependsOn
  }

  /** Since the dependencies were `deps0`, the vertices of the keys have gained `vertex`,
      and nothing else has changed: a key that has joined since then holds only `vertex`
      when it is one of the keys, and nothing otherwise. */
  ghost predicate GrownFrom(deps: map<VertexKey, set<Node>>, deps0: map<VertexKey, set<Node>>, keys: set<VertexKey>, vertex: Node) {
    forall k :: k in deps ==> deps[k] == (if k in deps0 then deps0[k] else {}) + (if k in keys then {vertex} else {})
  }

  ghost predicate Grown(vs: VertexCollection, deps0: map<VertexKey, set<Node>>, keys: set<VertexKey>, vertex: Node)
    reads vs, vs.collection.Values
  {
    GrownFrom(Deps(vs), deps0, keys, vertex)
  }

  /** The collection `c`, with dependencies `deps`, as the linking loops leave it: every
      key of `start` kept, the keys joined, and the dependencies grown by `vertex` on
      those keys. */
  ghost predicate GrowingFrom(c: map<VertexKey, Node>, deps: map<VertexKey, set<Node>>, start: map<VertexKey, Node>,
                              deps0: map<VertexKey, set<Node>>, keys: set<VertexKey>, vertex: Node)
  {
    && Extends(c, start) && deps0.Keys <= start.Keys && deps.Keys == c.Keys
    && c.Keys == start.Keys + keys && GrownFrom(deps, deps0, keys, vertex)
  }

  ghost predicate Growing(vs: VertexCollection, start: map<VertexKey, Node>, deps0: map<VertexKey, set<Node>>,
                          keys: set<VertexKey>, vertex: Node)
    reads vs, vs.collection.Values
  {
    vs.Valid() && GrowingFrom(vs.collection, Deps(vs), start, deps0, keys, vertex)
  }

  /** One more key gaining `vertex`, with every vertex kept and no other dependency
      changed, keeps the collection growing. */
  lemma GrowingStep(c1: map<VertexKey, Node>, d1: map<VertexKey, set<Node>>, c2: map<VertexKey, Node>, d2: map<VertexKey, set<Node>>,
                    start: map<VertexKey, Node>, deps0: map<VertexKey, set<Node>>, keys: set<VertexKey>, key: VertexKey, vertex: Node)
    requires GrowingFrom(c1, d1, start, deps0, keys, vertex)
    requires Extends(c2, c1) && d2.Keys == c2.Keys
    requires d2 == d1[key := (if key in d1 then d1[key] else {}) + {vertex}]
    ensures GrowingFrom(c2, d2, start, deps0, keys + {key}, vertex)
  {
    forall k | k in d2
      ensures d2[k] == (if k in deps0 then deps0[k] else {}) + (if k in keys + {key} then {vertex} else {})
    {
      if k == key && key !in d1 {
        assert k !in deps0;
      }
    }
    assert c2.Keys == d1.Keys + {key};
  }

  /** `vertices(key, builder, entity, set([vertex]))`: the key's vertex, new or old, gains
      the given one as a dependency, and no other vertex changes. */
  method Link(vertices: VertexCollection, key: VertexKey, entity: Row, vertex: Node)
    requires vertices.Valid()
    modifies vertices, vertices.collection.Values
    ensures vertices.Valid() && Keeps(vertices, old(vertices.collection))
    ensures forall u :: u in vertices.collection.Values ==> u in old(vertices.collection.Values) || fresh(u)
    ensures Deps(vertices) == old(Deps(vertices))[key := old(if key in vertices.collection then vertices.collection[key].dependsOn else {}) + {vertex}]
    ensures key in vertices.collection && (old(key !in vertices.collection) ==> vertices.collection[key].entity == entity)
  {
    ghost var before := vertices.collection;
    ghost var d1 := Deps(vertices);
    var v := vertices.Call(key, entity, {vertex});
    ghost var d2 := Deps(vertices);
    ghost var after := d1[key := (if key in before then d1[key] else {}) + {vertex}];
    assert d2.Keys == after.Keys;
    forall k | k in d2 ensures d2[k] == after[k] {
      if k != key {
        var u := before[k];
        assert vertices.collection[k] == u && u in old(vertices.collection.Values) && u != v;
      }
    }
    assert d2 == after;
  }

  /** Link inside the loops: one more key has gained `vertex`. */
  method LinkGrowing(vertices: VertexCollection, key: VertexKey, entity: Row, vertex: Node,
                     ghost start: map<VertexKey, Node>, ghost deps0: map<VertexKey, set<Node>>, ghost keys: set<VertexKey>)
    requires Growing(vertices, start, deps0, keys, vertex)
    modifies vertices, vertices.collection.Values
    ensures forall u :: u in vertices.collection.Values ==> u in old(vertices.collection.Values) || fresh(u)
    ensures Growing(vertices, start, deps0, keys + {key}, vertex)
  {
    ghost var c1 := vertices.collection;
    ghost var d1 := Deps(vertices);
    Link(vertices, key, entity, vertex);
    ghost var c2 := vertices.collection;
    ghost var d2 := Deps(vertices);
    assert d2.Keys == c2.Keys;
    GrowingStep(c1, d1, c2, d2, start, deps0, keys, key, vertex);
  }

  /** _build_dependencies: the entity's own vertex, then each dependency present among
      the actions gains it as a dependency and each absent one is skipped; each email,
      up to the first row without a template name, gains it too. The keys joining the
      collection are the entity's and those linked; no vertex changes except by gaining
      the entity's vertex. Returns the skipped keys, or fails on that row. */
  method BuildDependencies(vertices: VertexCollection, actions: map<VertexKey, Row>, entityKey: VertexKey, entity: Row,
                           dependencies: seq<VertexKey>, emailActions: seq<Row>)
    returns (r: Result<seq<VertexKey>, string>)
    requires vertices.Valid()
    modifies vertices, vertices.collection.Values
    ensures vertices.Valid() && Keeps(vertices, old(vertices.collection))
    ensures entityKey in vertices.collection
    ensures old(entityKey !in vertices.collection) ==> vertices.collection[entityKey].entity == entity
    ensures r.Ok? <==> EmailsNamed(emailActions) == |emailActions|
    ensures r.Ok? ==> r.value == Skipped(dependencies, actions)
    ensures var linked := DependencyKeys(dependencies, actions) + EmailKeys(emailActions, EmailsNamed(emailActions));
            vertices.collection.Keys == old(vertices.collection.Keys) + {entityKey} + linked &&
            Grown(vertices, old(Deps(vertices)), linked, vertices.collection[entityKey])
  {
    ghost var deps0 := Deps(vertices);
    var vertex := EntityVertex(vertices, entityKey, entity);
    ghost var atStart := vertices.collection;
    var skipped, linked := LinkDependencies(vertices, actions, vertex, dependencies, atStart, deps0);
    var emails := LinkEmails(vertices, vertex, emailActions, atStart, deps0, linked);
    ghost var all := linked + EmailKeys(emailActions, EmailsNamed(emailActions));
    assert Growing(vertices, atStart, deps0, all, vertex);
    assert vertices.collection.Keys == atStart.Keys + all;
    assert Grown(vertices, deps0, all, vertex);
    assert vertices.collection[entityKey] == atStart[entityKey];
    if emails.Err? {
      return Err(emails.error);
    }
    return Ok(skipped);
  }

  /** `vertex = vertices(entity_key, vertex_builder_fn, entity)`: the entity's vertex,
      found or built, with no dependency added anywhere. */
  method EntityVertex(vertices: VertexCollection, entityKey: VertexKey, entity: Row) returns (vertex: Node)
    requires vertices.Valid()
    modifies vertices, vertices.collection.Values
    ensures forall u :: u in vertices.collection.Values ==> u in old(vertices.collection.Values) || fresh(u)
    ensures Keeps(vertices, old(vertices.collection))
    ensures vertices.collection.Keys == old(vertices.collection.Keys) + {entityKey}
    ensures vertex == vertices.collection[entityKey]
    ensures old(entityKey !in vertices.collection) ==> vertex.entity == entity
    ensures Growing(vertices, vertices.collection, old(Deps(vertices)), {}, vertex)
  {
    ghost var deps0 := Deps(vertices);
    ghost var before := vertices.collection;
    vertex := vertices.Call(entityKey, entity, {});
    if entityKey in before {
      assert vertices.collection == before;
    } else {
      assert vertices.collection == before[entityKey := vertex];
    }
    assert vertices.collection.Keys == before.Keys + {entityKey};
    ghost var d2 := Deps(vertices);
    forall k | k in d2
      ensures d2[k] == (if k in deps0 then deps0[k] else {}) + (if k in {} then {vertex} else {})
    {
      if k in before {
        var u := before[k];
        assert k in deps0 && deps0[k] == old(u.dependsOn);
        assert u in old(vertices.collection.Values) && vertices.collection[k] == u;
      } else {
        assert k == entityKey && fresh(vertex);
      }
    }
    assert GrownFrom(d2, deps0, {}, vertex);
  }

  /** The dependency keys present among the actions. */
  ghost function DependencyKeys(dependencies: seq<VertexKey>, actions: map<VertexKey, Row>): set<VertexKey> {
    set k | k in dependencies && k in actions
  }

  /** One turn of that loop: a dependency among the actions is linked, an absent one
      is left alone. */
  method LinkIfPresent(vertices: VertexCollection, actions: map<VertexKey, Row>, key: VertexKey, vertex: Node,
                       ghost start: map<VertexKey, Node>, ghost deps0: map<VertexKey, set<Node>>, ghost keys: set<VertexKey>)
    returns (present: bool)
    requires Growing(vertices, start, deps0, keys, vertex)
    modifies vertices, vertices.collection.Values
    ensures present <==> key in actions
    ensures forall u :: u in vertices.collection.Values ==> u in old(vertices.collection.Values) || fresh(u)
    ensures Growing(vertices, start, deps0, if present then keys + {key} else keys, vertex)
  {
    present := key in actions;
    if present {
      LinkGrowing(vertices, key, actions[key], vertex, start, deps0, keys);
    }
  }

  /** The loop of _build_dependencies over the dependency keys: the skipped keys, and
      the keys linked, which join the collection. */
  method LinkDependencies(vertices: VertexCollection, actions: map<VertexKey, Row>, vertex: Node, dependencies: seq<VertexKey>,
                          ghost start: map<VertexKey, Node>, ghost deps0: map<VertexKey, set<Node>>)
    returns (skipped: seq<VertexKey>, ghost linked: set<VertexKey>)
    requires Growing(vertices, start, deps0, {}, vertex)
    modifies vertices, vertices.collection.Values
    ensures forall u :: u in vertices.collection.Values ==> u in old(vertices.collection.Values) || fresh(u)
    ensures skipped == Skipped(dependencies, actions)
    ensures linked == DependencyKeys(dependencies, actions)
    ensures Growing(vertices, start, deps0, linked, vertex)
  {
    skipped := [];
    linked := {};
    var i := 0;
    assert dependencies[..0] == [];
    while i < |dependencies|
      invariant 0 <= i <= |dependencies|
      invariant forall u :: u in vertices.collection.Values ==> u in old(vertices.collection.Values) || fresh(u)
      invariant skipped == Skipped(dependencies[..i], actions)
      invariant forall k :: k in linked <==> k in dependencies[..i] && k in actions
      invariant Growing(vertices, start, deps0, linked, vertex)
    {
      var key := dependencies[i];
      SkippedNext(dependencies, actions, i);
      ghost var before := vertices.collection.Values;
      var present := LinkIfPresent(vertices, actions, key, vertex, start, deps0, linked);
      forall u | u in vertices.collection.Values
        ensures u in old(vertices.collection.Values) || fresh(u)
      {
        if u in before {
          assert u in old(vertices.collection.Values) || fresh(u);
        }
      }
      if present {
        linked := linked + {key};
      } else {
        skipped := skipped + [key];
      }
      assert skipped == Skipped(dependencies[..i + 1], actions);
      i := i + 1;
    }
    assert dependencies[..i] == dependencies;
  }

  /** How many email rows, from the first, carry a template name: the loop over them
      stops at the first that does not. */
  function EmailsNamed(emailActions: seq<Row>): (n: nat)
    ensures n <= |emailActions|
    ensures forall j :: 0 <= j < n ==> "ActionEmailTemplateName" in emailActions[j]
    ensures n < |emailActions| ==> "ActionEmailTemplateName" !in emailActions[n]
  {
    if emailActions == [] || "ActionEmailTemplateName" !in emailActions[0] then 0
    else 1 + EmailsNamed(emailActions[1..])
  }

  /** The template keys of the first n email rows. */
  ghost function EmailKeys(emailActions: seq<Row>, n: nat): set<VertexKey>
    requires n <= |emailActions| && forall j :: 0 <= j < n ==> "ActionEmailTemplateName" in emailActions[j]
  {
    set j | 0 <= j < n :: Name(emailActions[j]["ActionEmailTemplateName"])
  }

  /** One turn of that loop, for a row that has a template name: its key is linked. */
  method LinkEmailAt(vertices: VertexCollection, vertex: Node, emailActions: seq<Row>, i: nat,
                     ghost start: map<VertexKey, Node>, ghost deps0: map<VertexKey, set<Node>>, ghost linked: set<VertexKey>)
    requires i < EmailsNamed(emailActions)
    requires Growing(vertices, start, deps0, linked + EmailKeys(emailActions, i), vertex)
    modifies vertices, vertices.collection.Values
    ensures forall u :: u in vertices.collection.Values ==> u in old(vertices.collection.Values) || fresh(u)
    ensures Growing(vertices, start, deps0, linked + EmailKeys(emailActions, i + 1), vertex)
  {
    var name := emailActions[i]["ActionEmailTemplateName"];
    assert linked + EmailKeys(emailActions, i + 1) == linked + EmailKeys(emailActions, i) + {Name(name)};
    LinkGrowing(vertices, Name(name), emailActions[i], vertex, start, deps0, linked + EmailKeys(emailActions, i));
  }

  /** The loop of _build_dependencies over the email templates: the templates up to the
      first row without a name are linked and join the collection; that row fails. */
  method LinkEmails(vertices: VertexCollection, vertex: Node, emailActions: seq<Row>,
                    ghost start: map<VertexKey, Node>, ghost deps0: map<VertexKey, set<Node>>, ghost linked: set<VertexKey>)
    returns (r: Result<(), string>)
    requires Growing(vertices, start, deps0, linked, vertex)
    modifies vertices, vertices.collection.Values
    ensures forall u :: u in vertices.collection.Values ==> u in old(vertices.collection.Values) || fresh(u)
    ensures r.Ok? <==> EmailsNamed(emailActions) == |emailActions|
    ensures Growing(vertices, start, deps0, linked + EmailKeys(emailActions, EmailsNamed(emailActions)), vertex)
  {
    ghost var n := EmailsNamed(emailActions);
    var i := 0;
    assert linked + EmailKeys(emailActions, 0) == linked;
    while i < |emailActions|
      invariant 0 <= i <= n
      invariant forall u :: u in vertices.collection.Values ==> u in old(vertices.collection.Values) || fresh(u)
      invariant Growing(vertices, start, deps0, linked + EmailKeys(emailActions, i), vertex)
    {
      var name := Column(emailActions[i], "ActionEmailTemplateName");
      if name.Err? {
        assert i == n;
        return Err(name.error);
      }
      ghost var before := vertices.collection.Values;
      LinkEmailAt(vertices, vertex, emailActions, i, start, deps0, linked);
      forall u | u in vertices.collection.Values
        ensures u in old(vertices.collection.Values) || fresh(u)
      {
        if u in before {
          assert u in old(vertices.collection.Values) || fresh(u);
        }
      }
      i := i + 1;
    }
    assert i == n;
    return Ok(());
  }

  // ---------------------------------------------------------------------------
  // notes
  // ---------------------------------------------------------------------------

  /** Python's repr of a key component. */
  function ReprValue(v: Value): string {
    match v
    case Null => "None"
    case Int(i) => IntToString(i)
    case Bool(b) => if b then "True" else "False"
    case Str(s) => "'" + s + "'"
    case Float(repr, _) => repr
  }

  function ReprKey(k: VertexKey): string {
    match k
    case Pair(g, a) => "(" + ReprValue(g) + ", " + ReprValue(a) + ")"
    case Name(n) => ReprValue(n)
  }

  function ReprKeys(ks: seq<VertexKey>): seq<string> {
    if ks == [] then [] else [ReprKey(ks[0])] + ReprKeys(ks[1..])
  }

  /** Python's repr of a list of keys. */
  function ReprList(ks: seq<VertexKey>): string {
    "[" + Join(", ", ReprKeys(ks)) + "]"
  }

  /** _print_note: a yellow note vertex. */
  function Note(name: string, text: string): string {
    name + "[label=\"" + text + "\", shape=\"note\", style=\"filled\", fillcolor=\"yellow\"]"
  }

  function ActionNote(skipped: seq<VertexKey>): string {
    Note("skipped_action_deps", "Skipped Action Dependencies:" + ReprList(skipped))
  }

  function TriggerNote(skipped: seq<VertexKey>): string {
    Note("skipped_trigger_deps", "Skipped Trigger Dependencies:" + ReprList(skipped))
  }

  /** _add_notes: a note per non-empty list of skipped dependencies, actions first. */
  function AddNotes(skippedAction: seq<VertexKey>, skippedTrigger: seq<VertexKey>): (r: seq<string>)
    ensures |r| == (if skippedAction != [] then 1 else 0) + (if skippedTrigger != [] then 1 else 0)
    ensures skippedAction != [] ==> r[0] == ActionNote(skippedAction)
    ensures skippedTrigger != [] ==> r[|r| - 1] == TriggerNote(skippedTrigger)
  {
    (if skippedAction != [] then [ActionNote(skippedAction)] else []) +
    (if skippedTrigger != [] then [TriggerNote(skippedTrigger)] else [])
  }

  /** Notes placed after the first line sit between it and the rest: taking them out
      gives the lines back in order, and the last line (the digraph's closing brace)
      stays last. */
  lemma NotesPlacement(lines: seq<string>, notes: seq<string>)
    requires lines != []
    ensures var out := [lines[0]] + notes + lines[1..];
            var k := 1 + |notes|;
            && |out| == |lines| + k - 1 && out[1..k] == notes && out[..1] + out[k..] == lines
            && out[0] == lines[0] && (|lines| >= 2 ==> out[|out| - 1] == lines[|lines| - 1])
  {
    var out := [lines[0]] + notes + lines[1..];
    var k := 1 + |notes|;
    assert out[1..k] == notes;
    assert out[k..] == lines[1..];
    assert out[..1] == [lines[0]];
    assert [lines[0]] + lines[1..] == lines;
  }

  /** The output loop of generate_digraph_from_action_list: every line passes through,
      and the notes follow the first line, once. */
  method InsertNotes(lines: seq<string>, skippedAction: seq<VertexKey>, skippedTrigger: seq<VertexKey>) returns (out: seq<string>)
    ensures lines == [] ==> out == []
    ensures lines != [] ==> out == [lines[0]] + AddNotes(skippedAction, skippedTrigger) + lines[1..]
  {
    out := [];
    ghost var notes := AddNotes(skippedAction, skippedTrigger);
    var addedNote := false;
    var i := 0;
    while i < |lines|
      invariant 0 <= i <= |lines|
      invariant addedNote <==> i > 0
      invariant i > 0 ==> out == [lines[0]] + notes + lines[1..i]
      invariant i == 0 ==> out == []
    {
      if addedNote {
        SliceSnoc(lines, 1, i);
        Regroup([lines[0]] + notes, lines[1..i], [lines[i]]);
      }
      out := out + [lines[i]];
      if !addedNote {
        addedNote := true;
        out := out + AddNotes(skippedAction, skippedTrigger);
        assert lines[1..1] == [];
      }
      i := i + 1;
    }
    if i > 0 {
      assert lines[1..i] == lines[1..];
    }
  }
}
