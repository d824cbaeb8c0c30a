/** db.py: turning the rows a query returns into records (parse_col, create_from_db),
    the key a table class computes for a record (tableclass), and the grouping loop
    of load. The connection and the SQL text are not modelled: a query's result is
    given as a sequence of rows. */
module Db {
  import opened Wrappers
  import opened Seqs

  /** A column value as the driver hands it over in a dict row. A float is carried as
      its repr and whether it is zero; nothing here computes with it. */
  datatype Value = Null | Int(i: int) | Bool(b: bool) | Str(s: string) | Float(repr: string, zero: bool)

  /** Python truthiness of a value. */
  predicate Truthy(v: Value) {
    match v
    case Null => false
    case Int(i) => i != 0
    case Bool(b) => b
    case Str(s) => s != ""
    case Float(_, zero) => !zero
  }

  /** Python `v == n` for an int literal n (True == 1 and False == 0; a float is taken
      to differ from every int). */
  predicate EqualsInt(v: Value, n: int) {
    match v
    case Int(i) => i == n
    case Bool(b) => (if b then 1 else 0) == n
    case _ => false
  }

  /** A row fetched with as_dict=True: column name to value. */
  type Row = map<string, Value>

  /** What calling a column parser does with a value: return, or raise. */
  datatype Outcome = Returned(v: Value) | RaisesColumnMissing | RaisesOther

  /** A dataclass field declared with col(): `column` is the 'column' metadata (None for
      fields that are not loaded), `parser` what parse_col calls (the 'parser' metadata,
      or the field's type when there is none), and `parserIsType` whether that parser is
      the field's type. */
  datatype Field = Field(name: string, column: Option<string>, nullable: bool,
                         parser: Value -> Outcome, parserIsType: bool)

  /** Why ColumnMissing was raised: no such column, NULL in a non-nullable field, or the
      parser raised it itself. */
  datatype Missing = Absent | NullValue | FromParser

  datatype ParseError = ColumnMissing(field: string, why: Missing) | ParsingFailed(field: string, val: Value)

  /** parse_col. */
  function ParseCol(f: Field, row: Row): Result<Value, ParseError>
    requires f.column.Some?
  {
    if f.column.value !in row then Err(ColumnMissing(f.name, Absent))
    else
      var val := row[f.column.value];
      if val == Null && !f.nullable then Err(ColumnMissing(f.name, NullValue))
      else if val == Null && f.parserIsType then Ok(Null)
      else match f.parser(val)
        case Returned(v) => Ok(v)
        case RaisesColumnMissing => Err(ColumnMissing(f.name, FromParser))
        case RaisesOther => Err(ParsingFailed(f.name, val))
  }

  /** The three ways parse_col can end, each characterised by the row and the field. */
  lemma ParseColOutcomes(f: Field, row: Row)
    requires f.column.Some?
    ensures var c := f.column.value; var r := ParseCol(f, row);
      && (r == Err(ColumnMissing(f.name, Absent)) <==> c !in row)
      && (r == Err(ColumnMissing(f.name, NullValue)) <==> c in row && row[c] == Null && !f.nullable)
      && (r.Ok? <==> c in row && (row[c] == Null ==> f.nullable) &&
                     ((row[c] == Null && f.parserIsType) || f.parser(row[c]).Returned?))
      && (r.Err? && r.error.ParsingFailed? <==>
            c in row && (row[c] != Null || (f.nullable && !f.parserIsType)) && f.parser(row[c]).RaisesOther?)
      && (r == Err(ColumnMissing(f.name, FromParser)) <==>
            c in row && (row[c] != Null || (f.nullable && !f.parserIsType)) && f.parser(row[c]).RaisesColumnMissing?)
      && (r.Ok? ==> r.value == (if row[c] == Null && f.parserIsType then Null else f.parser(row[c]).v))
      && (r.Err? && r.error.ParsingFailed? ==> r.error == ParsingFailed(f.name, row[c]))
  {
  }

  /** A NULL in a nullable field whose parser is the field's type is None, whatever that
      type would make of it: the parser is not called. With a parser of its own, the
      result is the parser's on the NULL. */
  lemma ParseColNullable(f: Field, row: Row)
    requires f.column.Some? && f.nullable && f.column.value in row && row[f.column.value] == Null
    ensures f.parserIsType ==> ParseCol(f, row) == Ok(Null)
    ensures !f.parserIsType ==> (ParseCol(f, row).Ok? <==> f.parser(Null).Returned?) &&
                                (ParseCol(f, row).Ok? ==> ParseCol(f, row).value == f.parser(Null).v)
  {
  }

  /** The fields that carry column metadata, in declaration order. */
  function ColumnFields(fs: seq<Field>): (r: seq<Field>)
    ensures |r| <= |fs|
    ensures forall i :: 0 <= i < |r| ==> r[i].column.Some?
  {
    if fs == [] then []
    else if fs[0].column.Some? then [fs[0]] + ColumnFields(fs[1..])
    else ColumnFields(fs[1..])
  }

  /** ColumnFields is the in-order filter: a single field is kept iff it has a column, */
  lemma ColumnFieldsSingle(f: Field)
    ensures ColumnFields([f]) == (if f.column.Some? then [f] else [])
  {
    assert [f][1..] == [];
  }

  /** and the fields of a concatenation are those of each part, in order. */
  lemma {:induction false} ColumnFieldsAppend(a: seq<Field>, b: seq<Field>)
    ensures ColumnFields(a + b) == ColumnFields(a) + ColumnFields(b)
  {
    if a == [] {
      assert a + b == b;
    } else {
      assert (a + b)[0] == a[0];
      assert (a + b)[1..] == a[1..] + b;
      ColumnFieldsAppend(a[1..], b);
    }
  }

  /** e is what parse_col raises on some field, and every field before it parses. */
  predicate FirstFailure(fs: seq<Field>, row: Row, e: ParseError)
    requires forall i :: 0 <= i < |fs| ==> fs[i].column.Some?
  {
    exists i :: 0 <= i < |fs| && ParseCol(fs[i], row) == Err(e) &&
      forall j :: 0 <= j < i ==> ParseCol(fs[j], row).Ok?
  }

  /** A failure of the fields after a first one that parses is the first failure of all. */
  lemma FirstFailureShift(fs: seq<Field>, row: Row, e: ParseError)
    requires fs != [] && forall i :: 0 <= i < |fs| ==> fs[i].column.Some?
    requires ParseCol(fs[0], row).Ok? && FirstFailure(fs[1..], row, e)
    ensures FirstFailure(fs, row, e)
  {
    var i :| 0 <= i < |fs| - 1 && ParseCol(fs[1..][i], row) == Err(e) &&
      forall j :: 0 <= j < i ==> ParseCol(fs[1..][j], row).Ok?;
    forall j | 0 <= j < i + 1 ensures ParseCol(fs[j], row).Ok? {
      if j > 0 {
        assert fs[j] == fs[1..][j - 1];
      }
    }
    assert fs[i + 1] == fs[1..][i];
  }

  /** The argument list create_from_db passes to the class: parse_col of each field in
      order; the first failure is the one raised. */
  function Args(fs: seq<Field>, row: Row): (r: Result<seq<Value>, ParseError>)
    requires forall i :: 0 <= i < |fs| ==> fs[i].column.Some?
    ensures r.Ok? ==> (|r.value| == |fs| &&
      forall i :: 0 <= i < |fs| ==> ParseCol(fs[i], row) == Ok(r.value[i]))
    ensures r.Err? ==> FirstFailure(fs, row, r.error)
    ensures r.Ok? <==> AllParse(fs, row)
  {
    if fs == [] then Ok([])
    else
      match ParseCol(fs[0], row)
      case Err(e) => Err(e)
      case Ok(v) =>
        match Args(fs[1..], row)
        case Err(e) =>
          FirstFailureShift(fs, row, e);
          Err(e)
        case Ok(vs) =>
          assert forall i :: 1 <= i < |fs| ==> fs[i] == fs[1..][i - 1];
          Ok([v] + vs)
  }

  /** A record: attribute name to value, for the loaded fields. */
  type Record = map<string, Value>

  /** The record built from the argument list: field i gets value i. */
  function RecordOf(fs: seq<Field>, vs: seq<Value>): (r: Record)
    requires |fs| == |vs|
    ensures forall a :: a in r <==> exists i :: 0 <= i < |fs| && fs[i].name == a
  {
    if fs == [] then map[]
    else RecordOf(fs[..|fs| - 1], vs[..|vs| - 1])[fs[|fs| - 1].name := vs[|vs| - 1]]
  }

  /** Dataclass field names are distinct. */
  predicate DistinctNames(fs: seq<Field>) {
    forall i, j :: 0 <= i < j < |fs| ==> fs[i].name != fs[j].name
  }

  lemma {:induction false} RecordOfValues(fs: seq<Field>, vs: seq<Value>)
    requires |fs| == |vs| && DistinctNames(fs)
    ensures forall i :: 0 <= i < |fs| ==> RecordOf(fs, vs)[fs[i].name] == vs[i]
  {
    forall i | 0 <= i < |fs| ensures RecordOf(fs, vs)[fs[i].name] == vs[i] {
      RecordOfAt(fs, vs, i);
    }
  }

  /** Field i gets value i when no later field has the same name. */
  lemma {:induction false} RecordOfAt(fs: seq<Field>, vs: seq<Value>, i: nat)
    requires |fs| == |vs| && i < |fs|
    requires forall j :: i < j < |fs| ==> fs[i].name != fs[j].name
    ensures fs[i].name in RecordOf(fs, vs) && RecordOf(fs, vs)[fs[i].name] == vs[i]
  {
    var n := |fs| - 1;
    if i < n {
      var fs', vs' := fs[..n], vs[..n];
      assert fs'[i] == fs[i] && vs'[i] == vs[i];
      assert forall j :: i < j < |fs'| ==> fs'[i].name != fs'[j].name by {
        forall j | i < j < |fs'| ensures fs'[i].name != fs'[j].name {
          assert fs'[j] == fs[j];
        }
      }
      RecordOfAt(fs', vs', i);
      assert fs[i].name != fs[n].name;
    }
  }

  /** create_from_db: the record of the parsed column fields, or the first parse error. */
  function CreateFromDb(fs: seq<Field>, row: Row): Result<Record, ParseError> {
    var cols := ColumnFields(fs);
    var vs :- Args(cols, row);
    Ok(RecordOf(cols, vs))
  }

  /** Every field parses. */
  predicate AllParse(fs: seq<Field>, row: Row)
    requires forall i :: 0 <= i < |fs| ==> fs[i].column.Some?
  {
    forall i :: 0 <= i < |fs| ==> ParseCol(fs[i], row).Ok?
  }

  /** One value per column field, in field order, or the first failure. */
  lemma CreateFromDbFields(fs: seq<Field>, row: Row)
    requires DistinctNames(ColumnFields(fs))
    ensures CreateFromDb(fs, row).Ok? <==> AllParse(ColumnFields(fs), row)
    ensures CreateFromDb(fs, row).Ok? ==> forall i :: 0 <= i < |ColumnFields(fs)| ==>
              CreateFromDb(fs, row).value[ColumnFields(fs)[i].name] == ParseCol(ColumnFields(fs)[i], row).value
    ensures CreateFromDb(fs, row).Err? ==> FirstFailure(ColumnFields(fs), row, CreateFromDb(fs, row).error)
  {
    var cols := ColumnFields(fs);
    var a := Args(cols, row);
    if a.Ok? {
      RecordOfValues(cols, a.value);
      assert CreateFromDb(fs, row) == Ok(RecordOf(cols, a.value));
    } else {
      assert CreateFromDb(fs, row) == Err(a.error);
    }
  }

  // ---------------------------------------------------------------------------
  // tableclass: keys
  // ---------------------------------------------------------------------------

  /** A lookup: one attribute name (a str), or a tuple of them. */
  datatype Lookup = Attr(name: string) | Attrs(names: seq<string>)

  datatype Key = Scalar(v: Value) | Tuple(vs: seq<Value>)

  /** The lookup tableclass settles on: the given one, else 'id' when the class has such
      a field, else the exception it raises. */
  function ResolveLookup(fieldNames: seq<string>, given: Option<Lookup>): (r: Result<Lookup, string>)
  {
    match given
    case Some(l) => Ok(l)
    case None =>
      if "id" in fieldNames then Ok(Attr("id"))
      else Err("Pass a lookup field into tableclass if there isn't an id field")
  }

  lemma ResolveLookupDefault(fieldNames: seq<string>, given: Option<Lookup>)
    ensures given.Some? ==> ResolveLookup(fieldNames, given) == Ok(given.value)
    ensures given.None? ==> (ResolveLookup(fieldNames, given) == Ok(Attr("id")) <==> "id" in fieldNames)
    ensures given.None? ==> (ResolveLookup(fieldNames, given).Err? <==> "id" !in fieldNames)
  {
  }

  /** getattr of each lookup attribute; a missing attribute raises AttributeError. */
  function AttrValues(names: seq<string>, rec: Record): (r: Result<seq<Value>, string>)
    ensures r.Ok? <==> forall i :: 0 <= i < |names| ==> names[i] in rec
    ensures r.Ok? ==> |r.value| == |names| && forall i :: 0 <= i < |names| ==> r.value[i] == rec[names[i]]
    ensures r.Err? ==> r.error !in rec && r.error in names
  {
    if names == [] then Ok([])
    else if names[0] !in rec then Err(names[0])
    else
      match AttrValues(names[1..], rec)
      case Err(a) => Err(a)
      case Ok(vs) => Ok([rec[names[0]]] + vs)
  }

  /** create_key: the attribute itself, or the tuple of the attributes in order. */
  function CreateKey(l: Lookup, rec: Record): Result<Key, string> {
    match l
    case Attr(a) => if a in rec then Ok(Scalar(rec[a])) else Err(a)
    case Attrs(names) =>
      var vs :- AttrValues(names, rec);
      Ok(Tuple(vs))
  }

  /** A tuple lookup gives the tuple of those attributes in order; two records agreeing on
      the lookup attributes get the same key. */
  lemma CreateKeyTuple(names: seq<string>, rec: Record, other: Record)
    requires forall i :: 0 <= i < |names| ==> names[i] in rec && names[i] in other && rec[names[i]] == other[names[i]]
    ensures CreateKey(Attrs(names), rec).Ok?
    ensures var k := CreateKey(Attrs(names), rec).value;
      k.Tuple? && |k.vs| == |names| && forall i :: 0 <= i < |names| ==> k.vs[i] == rec[names[i]]
    ensures CreateKey(Attrs(names), rec) == CreateKey(Attrs(names), other)
  {
    var a := AttrValues(names, rec);
    var b := AttrValues(names, other);
    assert a.value == b.value;
  }

  // ---------------------------------------------------------------------------
  // load
  // ---------------------------------------------------------------------------

  /** What tableclass attaches to a class: its fields, its lookup and one_to_many. */
  datatype Table = Table(fields: seq<Field>, lookup: Lookup, oneToMany: bool)

  datatype Loaded = Many(groups: map<Key, seq<Record>>) | Single(items: map<Key, Record>)

  datatype LoadError = Parse(e: ParseError) | NoAttribute(name: string) | DuplicateKey(key: Key)

  /** One fetched row: its record and the record's key. */
  function Entry(t: Table, row: Row): Result<(Key, Record), LoadError> {
    match CreateFromDb(t.fields, row)
    case Err(e) => Err(Parse(e))
    case Ok(rec) =>
      match CreateKey(t.lookup, rec)
      case Err(a) => Err(NoAttribute(a))
      case Ok(k) => Ok((k, rec))
  }

  /** The entries of all rows, in fetch order, or the first row's failure. */
  function Entries(t: Table, rows: seq<Row>): Result<seq<(Key, Record)>, LoadError> {
    if rows == [] then Ok([])
    else
      var n := |rows| - 1;
      var prev :- Entries(t, rows[..n]);
      var e :- Entry(t, rows[n]);
      Ok(prev + [e])
  }

  /** The entries are the rows' entries, one per row, in fetch order. */
  lemma {:induction false} EntriesAt(t: Table, rows: seq<Row>)
    ensures Entries(t, rows).Ok? ==>
              |Entries(t, rows).value| == |rows| && forall i :: 0 <= i < |rows| ==> Entry(t, rows[i]) == Ok(Entries(t, rows).value[i])
  {
    if rows != [] && Entries(t, rows).Ok? {
      var n := |rows| - 1;
      var front := rows[..n];
      EntriesAt(t, front);
      var es := Entries(t, rows).value;
      var prev := Entries(t, front).value;
      var last := Entry(t, rows[n]);
      assert last.Ok? && es == prev + [last.value];
      forall i | 0 <= i < |rows| ensures Entry(t, rows[i]) == Ok(es[i]) {
        if i < n {
          assert front[i] == rows[i] && es[i] == prev[i];
          assert Entry(t, front[i]) == Ok(prev[i]);
        } else {
          assert es[i] == last.value;
        }
      }
    }
  }

  /** `results[key].append(instance)` for every entry, into a defaultdict(list). */
  function Grouped(es: seq<(Key, Record)>): map<Key, seq<Record>> {
    if es == [] then map[]
    else
      var g := Grouped(es[..|es| - 1]);
      var (k, rec) := es[|es| - 1];
      g[k := (if k in g then g[k] else []) + [rec]]
  }

  /** The keys of the entries, in order. */
  function KeysOf(es: seq<(Key, Record)>): (r: seq<Key>)
    ensures |r| == |es| && forall i :: 0 <= i < |es| ==> r[i] == es[i].0
  {
    if es == [] then [] else KeysOf(es[..|es| - 1]) + [es[|es| - 1].0]
  }

  /** The records of the entries whose key is k, in order. */
  function RecordsFor(es: seq<(Key, Record)>, k: Key): seq<Record> {
    if es == [] then []
    else RecordsFor(es[..|es| - 1], k) + (if es[|es| - 1].0 == k then [es[|es| - 1].1] else [])
  }

  /** The single-valued table: each key to its record, or the first repeated key. */
  function Unique(es: seq<(Key, Record)>): Result<map<Key, Record>, LoadError> {
    if es == [] then Ok(map[])
    else
      var m :- Unique(es[..|es| - 1]);
      var (k, rec) := es[|es| - 1];
      if k in m then Err(DuplicateKey(k)) else Ok(m[k := rec])
  }

  /** The loop of load over the rows fetched so far. A failing row stops the loop, so
      an earlier failure, including a repeated key, wins. */
  function LoadRows(t: Table, rows: seq<Row>): Result<Loaded, LoadError> {
    if rows == [] then Ok(if t.oneToMany then Many(map[]) else Single(map[]))
    else
      var n := |rows| - 1;
      var prev :- LoadRows(t, rows[..n]);
      var e :- Entry(t, rows[n]);
      Add(prev, e.0, e.1)
  }

  /** One turn of the loop: append under the key, or insert a key not seen before. */
  function Add(l: Loaded, k: Key, rec: Record): Result<Loaded, LoadError> {
    match l
    case Many(g) => Ok(Many(g[k := (if k in g then g[k] else []) + [rec]]))
    case Single(m) => if k in m then Err(DuplicateKey(k)) else Ok(Single(m[k := rec]))
  }

  /** load, after the query: the loop over the fetched rows. */
  method Load(t: Table, rows: seq<Row>) returns (r: Result<Loaded, LoadError>)
    ensures r == LoadRows(t, rows)
  {
    var results: Loaded := if t.oneToMany then Many(map[]) else Single(map[]);
    var i := 0;
    while i < |rows|
      invariant 0 <= i <= |rows|
      invariant LoadRows(t, rows[..i]) == Ok(results)
    {
      var e := Entry(t, rows[i]);
      LoadRowsNext(t, rows, i, results);
      if e.Err? {
        LoadRowsStops(t, rows, i + 1);
        return Err(e.error);
      }
      var next := Add(results, e.value.0, e.value.1);
      if next.Err? {
        LoadRowsStops(t, rows, i + 1);
        return next;
      }
      results := next.value;
      i := i + 1;
    }
    assert rows[..i] == rows;
    r := Ok(results);
  }

  lemma LoadRowsNext(t: Table, rows: seq<Row>, i: nat, prev: Loaded)
    requires i < |rows| && LoadRows(t, rows[..i]) == Ok(prev)
    ensures Entry(t, rows[i]).Err? ==> LoadRows(t, rows[..i + 1]) == Err(Entry(t, rows[i]).error)
    ensures Entry(t, rows[i]).Ok? ==>
      LoadRows(t, rows[..i + 1]) == Add(prev, Entry(t, rows[i]).value.0, Entry(t, rows[i]).value.1)
  {
    assert rows[..i + 1][..i] == rows[..i];
  }

  /** Once the loop fails, the rows after the failing one do not matter. */
  lemma {:induction false} LoadRowsStops(t: Table, rows: seq<Row>, i: nat)
    requires i <= |rows| && LoadRows(t, rows[..i]).Err?
    ensures LoadRows(t, rows) == LoadRows(t, rows[..i])
    decreases |rows| - i
  {
    if i < |rows| {
      assert rows[..i + 1][..i] == rows[..i];
      LoadRowsStops(t, rows, i + 1);
    } else {
      assert rows[..i] == rows;
    }
  }

  /** A one-to-many table loads iff every row parses, and then it holds Grouped of the
      entries. */
  lemma {:induction false} LoadManyIsGrouped(t: Table, rows: seq<Row>)
    requires t.oneToMany
    ensures LoadRows(t, rows).Ok? <==> Entries(t, rows).Ok?
    ensures LoadRows(t, rows).Ok? ==> LoadRows(t, rows).value == Many(Grouped(Entries(t, rows).value))
    ensures LoadRows(t, rows).Err? ==> LoadRows(t, rows) == Err(Entries(t, rows).error)
  {
    if rows != [] {
      LoadManyIsGrouped(t, rows[..|rows| - 1]);
    }
  }

  /** A single-valued table loads iff every row parses and no key repeats, and then it
      holds Unique of the entries. */
  lemma {:induction false} LoadSingleIsUnique(t: Table, rows: seq<Row>)
    requires !t.oneToMany
    ensures Entries(t, rows).Ok? && Unique(Entries(t, rows).value).Ok? ==>
              LoadRows(t, rows) == Ok(Single(Unique(Entries(t, rows).value).value))
    ensures LoadRows(t, rows).Ok? ==> Entries(t, rows).Ok? && Unique(Entries(t, rows).value).Ok?
    ensures LoadRows(t, rows).Ok? ==> LoadRows(t, rows).value.Single?
  {
    if rows != [] {
      LoadSingleIsUnique(t, rows[..|rows| - 1]);
    }
  }

  /** A one-to-many load has a list for each key some entry carries, and no other. */
  lemma {:induction false} GroupedKeys(es: seq<(Key, Record)>)
    ensures forall k :: k in Grouped(es) <==> k in KeysOf(es)
  {
    if es != [] {
      GroupedKeys(es[..|es| - 1]);
    }
  }

  /** Every key of a one-to-many load holds exactly the records with that key, in fetch
      order. */
  lemma {:induction false} GroupedIsRecordsFor(es: seq<(Key, Record)>)
    ensures forall k :: k in Grouped(es) <==> k in KeysOf(es)
    ensures forall k :: k in Grouped(es) ==> Grouped(es)[k] == RecordsFor(es, k)
  {
    GroupedKeys(es);
    if es != [] {
      var p := es[..|es| - 1];
      GroupedIsRecordsFor(p);
      RecordsForAbsent(p);
    }
  }

  lemma {:induction false} RecordsForAbsent(es: seq<(Key, Record)>)
    ensures forall k :: k !in KeysOf(es) ==> RecordsFor(es, k) == []
  {
    if es != [] {
      RecordsForAbsent(es[..|es| - 1]);
    }
  }

  /** Sum of the list lengths of g over the keys ks. */
  function SumLens(g: map<Key, seq<Record>>, ks: seq<Key>): nat
    requires forall i :: 0 <= i < |ks| ==> ks[i] in g
  {
    if ks == [] then 0 else SumLens(g, ks[..|ks| - 1]) + |g[ks[|ks| - 1]]|
  }

  lemma {:induction false} SumLensOther(g: map<Key, seq<Record>>, ks: seq<Key>, k: Key, s: seq<Record>)
    requires forall i :: 0 <= i < |ks| ==> ks[i] in g
    requires k !in ks
    ensures SumLens(g[k := s], ks) == SumLens(g, ks)
  {
    if ks != [] {
      SumLensOther(g, ks[..|ks| - 1], k, s);
    }
  }

  lemma {:induction false} SumLensGrow(g: map<Key, seq<Record>>, ks: seq<Key>, k: Key, rec: Record)
    requires forall i :: 0 <= i < |ks| ==> ks[i] in g
    requires k in ks && k in g && NoDuplicates(ks)
    ensures SumLens(g[k := g[k] + [rec]], ks) == SumLens(g, ks) + 1
  {
    var n := |ks| - 1;
    var p := ks[..n];
    if ks[n] == k {
      assert k !in p;
      SumLensOther(g, p, k, g[k] + [rec]);
    } else {
      assert k in p;
      SumLensGrow(g, p, k, rec);
    }
  }

  /** The step of GroupedTotal: one more entry adds one to the total. */
  lemma GroupedTotalStep(p: seq<(Key, Record)>, k: Key, rec: Record)
    requires forall x :: x in Grouped(p) <==> x in KeysOf(p)
    requires forall x :: x in Dedup(KeysOf(p)) ==> x in Grouped(p)
    ensures var es := p + [(k, rec)];
      && (forall x :: x in Dedup(KeysOf(es)) ==> x in Grouped(es))
      && SumLens(Grouped(es), Dedup(KeysOf(es))) == SumLens(Grouped(p), Dedup(KeysOf(p))) + 1
  {
    var es := p + [(k, rec)];
    assert es[..|es| - 1] == p;
    var g := Grouped(p);
    var ks := Dedup(KeysOf(p));
    DedupElements(KeysOf(p));
    DedupNoDuplicates(KeysOf(p));
    assert KeysOf(es) == KeysOf(p) + [k];
    if k in g {
      assert Dedup(KeysOf(es)) == ks;
      SumLensGrow(g, ks, k, rec);
    } else {
      assert Dedup(KeysOf(es)) == ks + [k];
      var g' := g[k := [rec]];
      assert [] + [rec] == [rec];
      assert Grouped(es) == g';
      SumLensOther(g, ks, k, [rec]);
      assert (ks + [k])[..|ks|] == ks;
      assert SumLens(g', ks + [k]) == SumLens(g', ks) + |g'[k]|;
    }
  }

  /** The lists of a one-to-many load hold as many records as there were rows. */
  lemma {:induction false} GroupedTotal(es: seq<(Key, Record)>)
    ensures forall k :: k in Dedup(KeysOf(es)) ==> k in Grouped(es)
    ensures SumLens(Grouped(es), Dedup(KeysOf(es))) == |es|
  {
    if es != [] {
      var p := es[..|es| - 1];
      GroupedTotal(p);
      GroupedKeys(p);
      assert es == p + [es[|es| - 1]];
      GroupedTotalStep(p, es[|es| - 1].0, es[|es| - 1].1);
    }
  }

  /** A single-valued load maps each row's key to that row's record. */
  lemma {:induction false} UniqueMapsEntries(es: seq<(Key, Record)>)
    requires Unique(es).Ok?
    ensures NoDuplicates(KeysOf(es))
    ensures forall k :: k in Unique(es).value <==> k in KeysOf(es)
    ensures forall i :: 0 <= i < |es| ==> Unique(es).value[es[i].0] == es[i].1
  {
    if es != [] {
      var p := es[..|es| - 1];
      UniqueMapsEntries(p);
    }
  }

  /** And a repeated key is exactly what makes it fail once every row parses. */
  lemma {:induction false} UniqueFailsOnRepeat(es: seq<(Key, Record)>)
    ensures Unique(es).Ok? <==> NoDuplicates(KeysOf(es))
  {
    if es != [] {
      var p := es[..|es| - 1];
      UniqueFailsOnRepeat(p);
      if Unique(p).Ok? {
        UniqueMapsEntries(p);
      }
    }
  }
}
