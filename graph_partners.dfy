/** build_partners: the partner companies with their types and the partners each adds
    automatically, per type, when it is added itself. */
module GraphPartners {
  import opened Wrappers
  import opened Seqs
  import opened ReswareModel
  import opened Graph

  /** A partner company: the types it can take, and per type the partners it adds
      automatically, each with the type it is added as. A partner it adds is named by
      its id, the key of the dict build_partners returns. */
  datatype Partner = Partner(id: int, name: string, types: seq<PartnerType>,
                             autoAdds: map<PartnerType, seq<(int, PartnerType)>>)

  type AutoAdds = map<PartnerType, seq<(int, PartnerType)>>

  /** The order models.partners yields its records: each loaded partner once, stored
      under its own id. */
  ghost predicate ListsPartners(models: Models, order: seq<int>) {
    NoDuplicates(order) &&
    (forall k :: k in order <==> k in models.partners) &&
    (forall k :: k in models.partners ==> models.partners[k].id == k)
  }

  // ---------------------------------------------------------------------------
  // the first loop: types
  // ---------------------------------------------------------------------------

  /** The partner types of a partner's partners_types rows, in row order; an unknown
      type id raises KeyError. */
  function TypesOf(models: Models, rows: seq<PartnerTypes>): (r: Result<seq<PartnerType>, BuildError>)
    ensures r.Ok? <==> forall i :: 0 <= i < |rows| ==> rows[i].typeId in models.partnerTypes
    ensures r.Ok? ==> |r.value| == |rows|
    ensures r.Ok? ==> forall i :: 0 <= i < |rows| ==> r.value[i] == models.partnerTypes[rows[i].typeId]
    ensures r.Err? ==> r.error.KeyMissing? && r.error.table == "partner_types"
  {
    if rows == [] then Ok([])
    else
      var n := |rows| - 1;
      assert forall i :: 0 <= i < n ==> rows[..n][i] == rows[i];
      var prev :- TypesOf(models, rows[..n]);
      var t :- Find(models.partnerTypes, "partner_types", rows[n].typeId);
      Ok(prev + [t])
  }

  /** A partner as the first loop leaves it: its types, and no auto-adds yet. */
  function Initial(models: Models, k: int): (r: Result<Partner, BuildError>)
    requires k in models.partners
    ensures r.Ok? <==> TypesOf(models, Many(models.partnersTypes, models.partners[k].id)).Ok?
    ensures r.Ok? ==> r.value.id == models.partners[k].id && r.value.name == models.partners[k].name
    ensures r.Ok? ==> r.value.autoAdds == map[]
  {
    var mp := models.partners[k];
    var types :- TypesOf(models, Many(models.partnersTypes, mp.id));
    Ok(Partner(mp.id, mp.name, types, map[]))
  }

  /** The first loop of build_partners over the partners in order. */
  function FirstPass(models: Models, order: seq<int>): (r: Result<map<int, Partner>, BuildError>)
    requires forall k :: k in order ==> k in models.partners && models.partners[k].id == k
    ensures r.Ok? <==> forall k :: k in order ==> Initial(models, k).Ok?
    ensures r.Ok? ==> forall k :: k in r.value <==> k in order
    ensures r.Ok? ==> forall k :: k in r.value ==> Initial(models, k) == Ok(r.value[k])
  {
    if order == [] then Ok(map[])
    else
      var n := |order| - 1;
      assert forall i :: 0 <= i < n ==> order[..n][i] == order[i];
      assert forall k :: k in order <==> k in order[..n] || k == order[n];
      var prev :- FirstPass(models, order[..n]);
      var p :- Initial(models, order[n]);
      Ok(prev[p.id := p])
  }

  // ---------------------------------------------------------------------------
  // the second loop: auto-adds
  // ---------------------------------------------------------------------------

  /** One partners_auto_adds row: our type, then the partner to add, then the type it is
      added as, each looked up in that order. */
  function AutoAddEntry(models: Models, known: set<int>, row: PartnerAutoAdds): (r: Result<(PartnerType, (int, PartnerType)), BuildError>)
    ensures r.Ok? <==> row.typeId in models.partnerTypes && row.autoAddId in known && row.autoAddTypeId in models.partnerTypes
    ensures r.Ok? ==> r.value == (models.partnerTypes[row.typeId], (row.autoAddId, models.partnerTypes[row.autoAddTypeId]))
    ensures r.Err? && row.typeId in models.partnerTypes && row.autoAddId !in known ==> r.error == KeyMissing("partners", IdKey(row.autoAddId))
  {
    var ours :- Find(models.partnerTypes, "partner_types", row.typeId);
    if row.autoAddId !in known then Err(KeyMissing("partners", IdKey(row.autoAddId)))
    else
      var theirs :- Find(models.partnerTypes, "partner_types", row.autoAddTypeId);
      Ok((ours, (row.autoAddId, theirs)))
  }

  /** `partner.auto_adds[our_type].append(to_add)` for each row in turn, on a
      defaultdict(list). */
  function AutoAddsFrom(models: Models, known: set<int>, rows: seq<PartnerAutoAdds>): (r: Result<AutoAdds, BuildError>)
    ensures r.Ok? <==> forall i :: 0 <= i < |rows| ==> AutoAddEntry(models, known, rows[i]).Ok?
  {
    if rows == [] then Ok(map[])
    else
      var n := |rows| - 1;
      assert forall i :: 0 <= i < n ==> rows[..n][i] == rows[i];
      var prev :- AutoAddsFrom(models, known, rows[..n]);
      var e :- AutoAddEntry(models, known, rows[n]);
      Ok(prev[e.0 := Many(prev, e.0) + [e.1]])
  }

  /** The partners added when the partner is added as type t, independently of the
      dict: every row whose type is t, in row order. */
  function AddsOfType(models: Models, rows: seq<PartnerAutoAdds>, t: PartnerType): seq<(int, PartnerType)> {
    if rows == [] then []
    else
      var n := |rows| - 1;
      var row := rows[n];
      AddsOfType(models, rows[..n], t) +
      (if row.typeId in models.partnerTypes && models.partnerTypes[row.typeId] == t && row.autoAddTypeId in models.partnerTypes
       then [(row.autoAddId, models.partnerTypes[row.autoAddTypeId])] else [])
  }

  /** Each type's list holds exactly the rows of that type, in row order; a type with no
      row has no key; and every partner added is one of the known partners. */
  lemma {:induction false} AutoAddsGrouped(models: Models, known: set<int>, rows: seq<PartnerAutoAdds>)
    requires AutoAddsFrom(models, known, rows).Ok?
    ensures forall t :: Many(AutoAddsFrom(models, known, rows).value, t) == AddsOfType(models, rows, t)
    ensures forall t :: t in AutoAddsFrom(models, known, rows).value ==> AutoAddsFrom(models, known, rows).value[t] != []
    ensures forall t, j :: t in AutoAddsFrom(models, known, rows).value && 0 <= j < |AutoAddsFrom(models, known, rows).value[t]| ==>
              AutoAddsFrom(models, known, rows).value[t][j].0 in known
  {
    if rows != [] {
      var n := |rows| - 1;
      AutoAddsGrouped(models, known, rows[..n]);
      var prev: AutoAdds := AutoAddsFrom(models, known, rows[..n]).value;
      var e := AutoAddEntry(models, known, rows[n]).value;
      var r: AutoAdds := AutoAddsFrom(models, known, rows).value;
      assert r == prev[e.0 := Many(prev, e.0) + [e.1]];
      forall t ensures Many(r, t) == AddsOfType(models, rows, t) {
        if t == e.0 {
          assert Many(r, t) == Many(prev, t) + [e.1];
        } else {
          assert Many(r, t) == Many(prev, t);
        }
      }
      forall t: PartnerType, j: int | t in r && 0 <= j < |r[t]| ensures r[t][j].0 in known {
        if t == e.0 && j == |r[t]| - 1 {
          assert r[t][j] == e.1;
        } else {
          assert r[t][j] == prev[t][j];
        }
      }
    }
  }

  /** The second loop of build_partners: each partner in order receives the auto-adds of
      its rows; the other partners are untouched. */
  function SecondPass(models: Models, partners: map<int, Partner>, order: seq<int>): (r: Result<map<int, Partner>, BuildError>)
    requires forall k :: k in order ==> k in partners
    ensures r.Ok? <==> forall k :: k in order ==>
              AutoAddsFrom(models, partners.Keys, Many(models.partnersAutoAdds, partners[k].id)).Ok?
    ensures r.Ok? ==> r.value.Keys == partners.Keys
    ensures r.Ok? ==> forall k :: k in partners ==>
              r.value[k] == if k in order
                then partners[k].(autoAdds := AutoAddsFrom(models, partners.Keys, Many(models.partnersAutoAdds, partners[k].id)).value)
                else partners[k]
  {
    if order == [] then Ok(partners)
    else
      var n := |order| - 1;
      assert forall i :: 0 <= i < n ==> order[..n][i] == order[i];
      assert forall k :: k in order <==> k in order[..n] || k == order[n];
      var prev :- SecondPass(models, partners, order[..n]);
      var p := partners[order[n]];
      var adds :- AutoAddsFrom(models, partners.Keys, Many(models.partnersAutoAdds, p.id));
      Ok(prev[order[n] := p.(autoAdds := adds)])
  }

  /** build_partners: the partners by id, and the partner types table it was given. */
  function BuildPartnersOf(models: Models, order: seq<int>): (r: Result<(map<int, Partner>, map<int, PartnerType>), BuildError>)
    requires ListsPartners(models, order)
  {
    var first :- FirstPass(models, order);
    var second :- SecondPass(models, first, order);
    Ok((second, models.partnerTypes))
  }

  /** What build_partners returns: every loaded partner under its id, with its name, its
      types in row order and its auto-adds grouped by type; the types table unchanged.
      It succeeds iff every type id and every partner to add can be looked up. */
  lemma BuildPartnersMeaning(models: Models, order: seq<int>)
    requires ListsPartners(models, order)
    ensures BuildPartnersOf(models, order).Ok? <==>
              (forall k :: k in models.partners ==> TypesOf(models, Many(models.partnersTypes, k)).Ok?) &&
              (forall k :: k in models.partners ==> AutoAddsFrom(models, models.partners.Keys, Many(models.partnersAutoAdds, k)).Ok?)
    ensures BuildPartnersOf(models, order).Ok? ==>
              var (ps, types) := BuildPartnersOf(models, order).value;
              types == models.partnerTypes && ps.Keys == models.partners.Keys &&
              forall k :: k in ps ==>
                ps[k].id == k && ps[k].name == models.partners[k].name &&
                TypesOf(models, Many(models.partnersTypes, k)) == Ok(ps[k].types) &&
                AutoAddsFrom(models, models.partners.Keys, Many(models.partnersAutoAdds, k)) == Ok(ps[k].autoAdds)
  {
    var first := FirstPass(models, order);
    if first.Ok? {
      var ps := first.value;
      forall k ensures k in ps <==> k in models.partners {
      }
      forall k | k in ps ensures ps[k].id == k {
        assert Initial(models, k) == Ok(ps[k]);
      }
    }
  }

  // ---------------------------------------------------------------------------
  // the loops
  // ---------------------------------------------------------------------------

  lemma TypesOfNext(models: Models, rows: seq<PartnerTypes>, i: nat)
    requires i < |rows|
    ensures TypesOf(models, rows[..i + 1]) ==
      match TypesOf(models, rows[..i])
      case Err(e) => Err(e)
      case Ok(prev) => if rows[i].typeId in models.partnerTypes then Ok(prev + [models.partnerTypes[rows[i].typeId]])
                       else Err(KeyMissing("partner_types", IdKey(rows[i].typeId)))
  {
    assert rows[..i + 1][..i] == rows[..i];
  }

  lemma {:induction false} TypesOfStops(models: Models, rows: seq<PartnerTypes>, i: nat)
    requires i <= |rows| && TypesOf(models, rows[..i]).Err?
    ensures TypesOf(models, rows) == Err(TypesOf(models, rows[..i]).error)
    decreases |rows| - i
  {
    if i < |rows| {
      TypesOfNext(models, rows, i);
      TypesOfStops(models, rows, i + 1);
    } else {
      assert rows[..i] == rows;
    }
  }

  /** The inner loop of the first pass: partner.types.append(...) per row. */
  method CollectTypes(models: Models, rows: seq<PartnerTypes>) returns (r: Result<seq<PartnerType>, BuildError>)
    ensures r == TypesOf(models, rows)
  {
    var types := [];
    var i := 0;
    assert rows[..0] == [];
    while i < |rows|
      invariant 0 <= i <= |rows|
      invariant TypesOf(models, rows[..i]) == Ok(types)
    {
      TypesOfNext(models, rows, i);
      if rows[i].typeId !in models.partnerTypes {
        TypesOfStops(models, rows, i + 1);
        return Err(KeyMissing("partner_types", IdKey(rows[i].typeId)));
      }
      types := types + [models.partnerTypes[rows[i].typeId]];
      i := i + 1;
    }
    assert rows[..i] == rows;
    return Ok(types);
  }

  lemma AutoAddsFromNext(models: Models, known: set<int>, rows: seq<PartnerAutoAdds>, i: nat)
    requires i < |rows|
    ensures AutoAddsFrom(models, known, rows[..i + 1]) ==
      match AutoAddsFrom(models, known, rows[..i])
      case Err(e) => Err(e)
      case Ok(prev) =>
        match AutoAddEntry(models, known, rows[i])
        case Err(e) => Err(e)
        case Ok(entry) => Ok(prev[entry.0 := Many(prev, entry.0) + [entry.1]])
  {
    assert rows[..i + 1][..i] == rows[..i];
  }

  lemma {:induction false} AutoAddsFromStops(models: Models, known: set<int>, rows: seq<PartnerAutoAdds>, i: nat)
    requires i <= |rows| && AutoAddsFrom(models, known, rows[..i]).Err?
    ensures AutoAddsFrom(models, known, rows) == Err(AutoAddsFrom(models, known, rows[..i]).error)
    decreases |rows| - i
  {
    if i < |rows| {
      AutoAddsFromNext(models, known, rows, i);
      AutoAddsFromStops(models, known, rows, i + 1);
    } else {
      assert rows[..i] == rows;
    }
  }

  /** The inner loop of the second pass over a partner's partners_auto_adds rows. */
  method CollectAutoAdds(models: Models, known: set<int>, rows: seq<PartnerAutoAdds>) returns (r: Result<AutoAdds, BuildError>)
    ensures r == AutoAddsFrom(models, known, rows)
  {
    var adds: AutoAdds := map[];
    var i := 0;
    assert rows[..0] == [];
    while i < |rows|
      invariant 0 <= i <= |rows|
      invariant AutoAddsFrom(models, known, rows[..i]) == Ok(adds)
    {
      AutoAddsFromNext(models, known, rows, i);
      var row := rows[i];
      if row.typeId !in models.partnerTypes {
        AutoAddsFromStops(models, known, rows, i + 1);
        return Err(KeyMissing("partner_types", IdKey(row.typeId)));
      }
      var ours := models.partnerTypes[row.typeId];
      if row.autoAddId !in known {
        AutoAddsFromStops(models, known, rows, i + 1);
        return Err(KeyMissing("partners", IdKey(row.autoAddId)));
      }
      if row.autoAddTypeId !in models.partnerTypes {
        AutoAddsFromStops(models, known, rows, i + 1);
        return Err(KeyMissing("partner_types", IdKey(row.autoAddTypeId)));
      }
      var toAdd := (row.autoAddId, models.partnerTypes[row.autoAddTypeId]);
      adds := adds[ours := Many(adds, ours) + [toAdd]];
      i := i + 1;
    }
    assert rows[..i] == rows;
    return Ok(adds);
  }

  lemma FirstPassNext(models: Models, order: seq<int>, i: nat)
    requires i < |order|
    requires forall k :: k in order ==> k in models.partners && models.partners[k].id == k
    ensures order[i] in models.partners
    ensures FirstPass(models, order[..i + 1]) ==
      match FirstPass(models, order[..i])
      case Err(e) => Err(e)
      case Ok(prev) =>
        match Initial(models, order[i])
        case Err(e) => Err(e)
        case Ok(p) => Ok(prev[p.id := p])
  {
    assert order[..i + 1][..i] == order[..i];
    assert order[..i + 1][i] == order[i];
  }

  lemma {:induction false} FirstPassStops(models: Models, order: seq<int>, i: nat)
    requires forall k :: k in order ==> k in models.partners && models.partners[k].id == k
    requires i <= |order| && FirstPass(models, order[..i]).Err?
    ensures FirstPass(models, order) == Err(FirstPass(models, order[..i]).error)
    decreases |order| - i
  {
    if i < |order| {
      FirstPassNext(models, order, i);
      FirstPassStops(models, order, i + 1);
    } else {
      assert order[..i] == order;
    }
  }

  lemma SecondPassNext(models: Models, partners: map<int, Partner>, order: seq<int>, i: nat)
    requires i < |order|
    requires forall k :: k in order ==> k in partners
    ensures order[i] in partners
    ensures SecondPass(models, partners, order[..i + 1]) ==
      match SecondPass(models, partners, order[..i])
      case Err(e) => Err(e)
      case Ok(prev) =>
        match AutoAddsFrom(models, partners.Keys, Many(models.partnersAutoAdds, partners[order[i]].id))
        case Err(e) => Err(e)
        case Ok(adds) => Ok(prev[order[i] := partners[order[i]].(autoAdds := adds)])
  {
    assert order[..i + 1][..i] == order[..i];
    assert order[..i + 1][i] == order[i];
  }

  lemma {:induction false} SecondPassStops(models: Models, partners: map<int, Partner>, order: seq<int>, i: nat)
    requires forall k :: k in order ==> k in partners
    requires i <= |order| && SecondPass(models, partners, order[..i]).Err?
    ensures SecondPass(models, partners, order) == Err(SecondPass(models, partners, order[..i]).error)
    decreases |order| - i
  {
    if i < |order| {
      SecondPassNext(models, partners, order, i);
      SecondPassStops(models, partners, order, i + 1);
    } else {
      assert order[..i] == order;
    }
  }

  /** The first loop of build_partners: a partner with its types for each record. */
  method BuildTypedPartners(models: Models, order: seq<int>) returns (r: Result<map<int, Partner>, BuildError>)
    requires forall k :: k in order ==> k in models.partners && models.partners[k].id == k
    ensures r == FirstPass(models, order)
  {
    var partners: map<int, Partner> := map[];
    var i := 0;
    assert order[..0] == [];
    while i < |order|
      invariant 0 <= i <= |order|
      invariant FirstPass(models, order[..i]) == Ok(partners)
    {
      FirstPassNext(models, order, i);
      var mp := models.partners[order[i]];
      var types := CollectTypes(models, Many(models.partnersTypes, mp.id));
      if types.Err? {
        FirstPassStops(models, order, i + 1);
        return Err(types.error);
      }
      var partner := Partner(mp.id, mp.name, types.value, map[]);
      partners := partners[partner.id := partner];
      i := i + 1;
    }
    assert order[..i] == order;
    return Ok(partners);
  }

  /** The second loop of build_partners: each partner's auto-adds, looked up among the
      partners the first loop built. */
  method FillAutoAdds(models: Models, partners: map<int, Partner>, order: seq<int>) returns (r: Result<map<int, Partner>, BuildError>)
    requires forall k :: k in order ==> k in partners
    ensures r == SecondPass(models, partners, order)
  {
    var known := partners.Keys;
    var result := partners;
    var j := 0;
    assert order[..0] == [];
    while j < |order|
      invariant 0 <= j <= |order|
      invariant SecondPass(models, partners, order[..j]) == Ok(result)
    {
      SecondPassNext(models, partners, order, j);
      var partner := partners[order[j]];
      var adds := CollectAutoAdds(models, known, Many(models.partnersAutoAdds, partner.id));
      if adds.Err? {
        SecondPassStops(models, partners, order, j + 1);
        return Err(adds.error);
      }
      result := result[order[j] := partner.(autoAdds := adds.value)];
      j := j + 1;
    }
    assert order[..j] == order;
    return Ok(result);
  }

  /** build_partners over models.partners in the given order. */
  method BuildPartners(models: Models, order: seq<int>) returns (r: Result<(map<int, Partner>, map<int, PartnerType>), BuildError>)
    requires ListsPartners(models, order)
    ensures r == BuildPartnersOf(models, order)
  {
    var first := BuildTypedPartners(models, order);
    if first.Err? {
      return Err(first.error);
    }
    var second := FillAutoAdds(models, first.value, order);
    if second.Err? {
      return Err(second.error);
    }
    return Ok((second.value, models.partnerTypes));
  }
}
