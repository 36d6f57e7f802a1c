/** The schema of a tabular data set: an ordered, non-empty sequence of named
    and typed fields, with lookup by position and by name, and a serialised
    form made of one record per field.

    As in `src/data/_schema.py`, the attributes of a `SchemaField` and of a
    `Schema` are assigned once and only read afterwards. The schema's field
    list is taken here as a value: the caller's list object, which Python
    keeps by reference, is not modelled. */
module DataSchema {
  import opened Wrappers

  /** The exceptions the Python code raises, with the messages it raises them with. */
  datatype Error =
    | ValueError(message: string)
    | KeyError(key: string)
    | IndexError(message: string)
    | AttributeError(message: string)

  const EmptyFieldsMessage := "One or more fields must be specified"
  const EmptyArgsMessage := "One or more fields must be specified."
  const ListIndexMessage := "list index out of range"
  const ListHasNoNameMessage := "'list' object has no attribute 'name'"

  // ---------------------------------------------------------------------------
  // SchemaFieldType

  /** The closed set of field types; each member's name is also its value. */
  datatype SchemaFieldType = Integer | Real | Discrete

  /** The member's name (`SchemaFieldType.x.name`), used when formatting. */
  function TypeName(t: SchemaFieldType): (name: string)
    ensures name == "integer" <==> t.Integer?
    ensures name == "real" <==> t.Real?
    ensures name == "discrete" <==> t.Discrete?
  {
    match t
    case Integer => "integer"
    case Real => "real"
    case Discrete => "discrete"
  }

  /** `SchemaFieldType[n]`: the member whose name is `n`; `None` where Python
      raises `KeyError(n)`. */
  function TypeFromName(n: string): (r: Option<SchemaFieldType>)
    ensures r.Some? <==> exists t :: TypeName(t) == n
    ensures r.Some? ==> TypeName(r.value) == n
  {
    if n == "integer" then assert TypeName(Integer) == n; Some(Integer)
    else if n == "real" then assert TypeName(Real) == n; Some(Real)
    else if n == "discrete" then assert TypeName(Discrete) == n; Some(Discrete)
    else None
  }

  /** Looking a type up by the name it formats to gives the type back. */
  lemma TypeNameRoundTrip(t: SchemaFieldType)
    ensures TypeFromName(TypeName(t)) == Some(t)
  {
  }

  // ---------------------------------------------------------------------------
  // SchemaField

  /** One column: its name, its type and its length (the number of values per
      record; 0 means variable length). Neither the name nor the length is
      checked by the source, so neither is constrained here. The accessors
      `name`, `type` and `length` are the destructors. */
  datatype SchemaField = SchemaField(name: string, fieldType: SchemaFieldType, length: int)

  /** `SchemaField.numeric`: the type is `integer` or `real`. */
  predicate Numeric(f: SchemaField)
    ensures Numeric(f) <==> !f.fieldType.Discrete?
  {
    f.fieldType in [Integer, Real]
  }

  /** `SchemaField.discrete(name, length=1)`. */
  function DiscreteField(name: string, length: int := 1): (f: SchemaField)
    ensures f.name == name && f.fieldType == Discrete && f.length == length
    ensures !Numeric(f)
  {
    SchemaField(name, Discrete, length)
  }

  /** `SchemaField.integer(name, length=1)`. */
  function IntegerField(name: string, length: int := 1): (f: SchemaField)
    ensures f.name == name && f.fieldType == Integer && f.length == length
    ensures Numeric(f)
  {
    SchemaField(name, Integer, length)
  }

  /** `SchemaField.real(name, length=1)`. */
  function RealField(name: string, length: int := 1): (f: SchemaField)
    ensures f.name == name && f.fieldType == Real && f.length == length
    ensures Numeric(f)
  {
    SchemaField(name, Real, length)
  }

  // ---------------------------------------------------------------------------
  // Schema

  /** A schema keeps both the list it was built from and the name map built
      from that list when it was constructed. */
  datatype Schema = Schema(fields: seq<SchemaField>, fieldMap: map<string, SchemaField>)
  {
    /** What construction establishes and nothing changes afterwards. */
    ghost predicate Valid() {
      |fields| > 0 && fieldMap == FieldMap(fields)
    }
  }

  /** `dict(map(lambda f: (f.name, f), fields))`: the pairs are inserted in
      list order, so a later field overwrites an earlier one of the same name.
      Its keys are exactly the names that occur in the list. */
  function FieldMap(fields: seq<SchemaField>): (m: map<string, SchemaField>)
    ensures forall n :: n in m <==> exists i :: 0 <= i < |fields| && fields[i].name == n
  {
    if fields == [] then map[]
    else
      var last := fields[|fields| - 1];
      FieldMap(fields[..|fields| - 1])[last.name := last]
  }

  /** Field `i` is the last one in the list that carries the name `n`. */
  ghost predicate IsLastNamed(fields: seq<SchemaField>, i: int, n: string) {
    0 <= i < |fields| && fields[i].name == n &&
    forall j :: i < j < |fields| ==> fields[j].name != n
  }

  /** The last field of a name is the one the map keeps: later duplicates win. */
  lemma {:induction false} FieldMapLastWins(fields: seq<SchemaField>, i: int, n: string)
    requires IsLastNamed(fields, i, n)
    ensures n in FieldMap(fields) && FieldMap(fields)[n] == fields[i]
  {
    if i < |fields| - 1 {
      var prefix := fields[..|fields| - 1];
      assert fields[|fields| - 1].name != n;
      assert IsLastNamed(prefix, i, n);
      FieldMapLastWins(prefix, i, n);
    }
  }

  /** The position of the last field named `n`, or -1 when there is none. */
  function LastIndexNamed(fields: seq<SchemaField>, n: string): (i: int)
    ensures -1 <= i < |fields|
    ensures i >= 0 ==> fields[i].name == n
    ensures forall j :: i < j < |fields| ==> fields[j].name != n
  {
    if fields == [] then -1
    else if fields[|fields| - 1].name == n then |fields| - 1
    else LastIndexNamed(fields[..|fields| - 1], n)
  }

  /** Every entry of the map is the last field in the list with its name. */
  lemma FieldMapEntryIsLast(fields: seq<SchemaField>, n: string)
    requires n in FieldMap(fields)
    ensures exists i :: IsLastNamed(fields, i, n) && FieldMap(fields)[n] == fields[i]
  {
    var i := LastIndexNamed(fields, n);
    assert i >= 0;
    assert IsLastNamed(fields, i, n);
    FieldMapLastWins(fields, i, n);
  }

  /** Lookup in the map built from a list: a miss exactly when no field has the
      name, and otherwise the last field in the list that has it. */
  lemma FieldMapLookup(fields: seq<SchemaField>, n: string)
    ensures n !in FieldMap(fields) <==> forall i :: 0 <= i < |fields| ==> fields[i].name != n
    ensures forall i :: IsLastNamed(fields, i, n) ==> n in FieldMap(fields) && FieldMap(fields)[n] == fields[i]
    ensures n in FieldMap(fields) ==> exists i :: IsLastNamed(fields, i, n) && FieldMap(fields)[n] == fields[i]
  {
    forall i | IsLastNamed(fields, i, n)
      ensures n in FieldMap(fields) && FieldMap(fields)[n] == fields[i]
    {
      FieldMapLastWins(fields, i, n);
    }
    if n in FieldMap(fields) {
      FieldMapEntryIsLast(fields, n);
    }
  }

  /** `Schema(fields)`: fails on an empty list, otherwise keeps the list as
      given (duplicates and all) and builds the name map from it. */
  function Construct(fields: seq<SchemaField>): (r: Result<Schema, Error>)
    ensures r.Err? <==> |fields| == 0
    ensures r.Err? ==> r.error == ValueError(EmptyFieldsMessage)
    ensures r.Ok? ==> r.value.Valid() && r.value.fields == fields
  {
    if |fields| == 0 then Err(ValueError(EmptyFieldsMessage))
    else Ok(Schema(fields, FieldMap(fields)))
  }

  /** One positional argument of `Schema.create(*args)`: a field or a list. */
  datatype CreateArg = FieldArg(field: SchemaField) | ListArg(items: seq<SchemaField>)

  /** `list(args)` once `Schema.__init__` reads `.name` of each element: the
      fields in order, or the `AttributeError` of the first list among them. */
  function ArgFields(args: seq<CreateArg>): (r: Result<seq<SchemaField>, Error>)
    ensures r.Ok? <==> forall i :: 0 <= i < |args| ==> args[i].FieldArg?
    ensures r.Ok? ==> |r.value| == |args| && forall i :: 0 <= i < |args| ==> r.value[i] == args[i].field
    ensures r.Err? ==> r.error == AttributeError(ListHasNoNameMessage)
  {
    if args == [] then Ok([])
    else if args[0].ListArg? then Err(AttributeError(ListHasNoNameMessage))
    else match ArgFields(args[1..])
      case Err(e) => Err(e)
      case Ok(rest) => Ok([args[0].field] + rest)
  }

  /** `Schema.create(*args)`: with no arguments it fails; when the first
      argument is a list, the schema is built from that list alone (the other
      arguments are ignored); otherwise it is built from all the arguments in
      the order given. */
  function Create(args: seq<CreateArg>): (r: Result<Schema, Error>)
    ensures |args| == 0 ==> r == Err(ValueError(EmptyArgsMessage))
    ensures |args| > 0 && args[0].ListArg? ==>
      (r.Err? <==> |args[0].items| == 0) &&
      (r.Err? ==> r.error == ValueError(EmptyFieldsMessage)) &&
      (r.Ok? ==> r.value.Valid() && r.value.fields == args[0].items)
    ensures |args| > 0 && args[0].FieldArg? ==>
      (r.Ok? <==> forall i :: 0 <= i < |args| ==> args[i].FieldArg?) &&
      (r.Err? ==> r.error == AttributeError(ListHasNoNameMessage)) &&
      (r.Ok? ==> r.value.Valid() && |r.value.fields| == |args| &&
                 forall i :: 0 <= i < |args| ==> r.value.fields[i] == args[i].field)
  {
    if |args| == 0 then Err(ValueError(EmptyArgsMessage))
    else if args[0].ListArg? then Construct(args[0].items)
    else match ArgFields(args)
      case Err(e) => Err(e)
      case Ok(fields) => Construct(fields)
  }

  /** `len(schema)`. */
  function Len(s: Schema): (n: nat)
    ensures s.Valid() ==> n > 0
  {
    |s.fields|
  }

  /** The number of fields of a created schema is the number supplied. */
  lemma CreateLength(args: seq<CreateArg>)
    requires Create(args).Ok?
    ensures Len(Create(args).value) == if args[0].ListArg? then |args[0].items| else |args|
  {
  }

  /** The `fields` property: the field names, in schema order. */
  function FieldNames(s: Schema): (names: seq<string>)
    ensures |names| == Len(s)
    ensures forall i :: 0 <= i < |names| ==> names[i] == s.fields[i].name
  {
    seq(|s.fields|, i requires 0 <= i < |s.fields| => s.fields[i].name)
  }

  /** `iter(schema)`: the generator yields the fields one by one; here the
      yielded values are collected in order. */
  method Iterate(s: Schema) returns (yielded: seq<SchemaField>)
    ensures yielded == s.fields
    ensures |yielded| == Len(s) == |FieldNames(s)|
    ensures forall i :: 0 <= i < |yielded| ==> yielded[i].name == FieldNames(s)[i]
  {
    yielded := [];
    for k := 0 to |s.fields|
      invariant yielded == s.fields[..k]
    {
      yielded := yielded + [s.fields[k]];
    }
  }

  /** Python's `xs[i]` on a list: negative indices count from the end, and an
      index outside `[-len, len)` raises `IndexError`. */
  function ListIndex<T>(xs: seq<T>, i: int): (r: Result<T, Error>)
    ensures 0 <= i < |xs| ==> r == Ok(xs[i])
    ensures -|xs| <= i < 0 ==> r == Ok(xs[|xs| + i])
    ensures r.Err? <==> i < -|xs| || |xs| <= i
    ensures r.Err? ==> r.error == IndexError(ListIndexMessage)
  {
    if 0 <= i < |xs| then Ok(xs[i])
    else if -|xs| <= i < 0 then Ok(xs[|xs| + i])
    else Err(IndexError(ListIndexMessage))
  }

  /** `schema[index]` for an `int` index, as written: the only guard is
      `len > index`, so an index at or past the end gives `None`, a negative
      index counts from the end, and one below `-len` raises. */
  function GetAt(s: Schema, index: int): (r: Result<Option<SchemaField>, Error>)
    ensures index >= |s.fields| ==> r == Ok(None)
    ensures 0 <= index < |s.fields| ==> r == Ok(Some(s.fields[index]))
    ensures -|s.fields| <= index < 0 ==> r == Ok(Some(s.fields[|s.fields| + index]))
    ensures index < -|s.fields| ==> r == Err(IndexError(ListIndexMessage))
  {
    if |s.fields| > index then
      match ListIndex(s.fields, index)
      case Ok(f) => Ok(Some(f))
      case Err(e) => Err(e)
    else Ok(None)
  }

  /** An index below `-len` raises instead of giving `None`. */
  lemma GetAtRaisesBelowMinusLength(s: Schema)
    ensures GetAt(s, -(Len(s) as int) - 1) == Err(IndexError(ListIndexMessage))
  {
  }

  /** `schema[index]` for an `int` index as its documentation promises: the
      field if it is at a position of the list, `None` otherwise. */
  function GetAtIntended(s: Schema, index: int): (r: Option<SchemaField>)
    ensures r.Some? <==> 0 <= index < Len(s)
    ensures r.Some? ==> r.value == s.fields[index]
    ensures 0 <= index ==> GetAt(s, index) == Ok(r)
  {
    if 0 <= index < |s.fields| then Some(s.fields[index]) else None
  }

  /** `schema[name]` for a name: the entry of the name map, or `None`. On a
      constructed schema that is `None` exactly when no field has the name,
      and otherwise the last field in the list that has it. */
  function GetByName(s: Schema, name: string): (r: Option<SchemaField>)
    ensures r.Some? <==> name in s.fieldMap
    ensures r.Some? ==> r.value == s.fieldMap[name]
    ensures s.Valid() ==> (r.None? <==> forall i :: 0 <= i < |s.fields| ==> s.fields[i].name != name)
    ensures s.Valid() ==> forall i :: IsLastNamed(s.fields, i, name) ==> r == Some(s.fields[i])
    ensures s.Valid() && r.Some? ==> exists i :: IsLastNamed(s.fields, i, name) && r.value == s.fields[i]
  {
    FieldMapLookup(s.fields, name);
    if name in s.fieldMap then Some(s.fieldMap[name]) else None
  }

  /** Every name listed by `fields` can be looked up. */
  lemma FieldNamesCanBeLookedUp(s: Schema, i: int)
    requires s.Valid() && 0 <= i < Len(s)
    ensures GetByName(s, FieldNames(s)[i]).Some?
    ensures GetByName(s, FieldNames(s)[i]).value.name == FieldNames(s)[i]
  {
    var n := FieldNames(s)[i];
    FieldMapEntryIsLast(s.fields, n);
  }

  // ---------------------------------------------------------------------------
  // Serialised form: `format` and `parse` at the level of the loaded document

  /** One record of the `fields` list; a key that is absent is `None`. */
  datatype FieldRecord = FieldRecord(name: Option<string>, typeName: Option<string>, length: Option<int>)

  /** The loaded document; its `fields` key may be absent. */
  datatype SchemaSpec = SchemaSpec(fields: Option<seq<FieldRecord>>)

  /** The argument of `Schema.parse`: a schema already, or a document. */
  datatype ParseInput = Parsed(schema: Schema) | Document(spec: SchemaSpec)

  /** The record `format` writes for one field. */
  function FormatField(f: SchemaField): (rec: FieldRecord)
    ensures ParseRecord(rec) == Ok(f)
  {
    TypeNameRoundTrip(f.fieldType);
    FieldRecord(Some(f.name), Some(TypeName(f.fieldType)), Some(f.length))
  }

  /** The records of a field list, one per field, in order. */
  function FormatRecords(fields: seq<SchemaField>): (records: seq<FieldRecord>)
    ensures |records| == |fields|
    ensures forall i :: 0 <= i < |fields| ==> records[i] == FormatField(fields[i])
  {
    if fields == [] then [] else [FormatField(fields[0])] + FormatRecords(fields[1..])
  }

  /** `schema.format()`, before YAML: `{'fields': [...]}` with one record of
      name, type name and length per field, in schema order. */
  function Format(s: Schema): (spec: SchemaSpec)
    ensures spec.fields.Some? && |spec.fields.value| == Len(s)
    ensures forall i :: 0 <= i < Len(s) ==>
      spec.fields.value[i].name == Some(s.fields[i].name) &&
      spec.fields.value[i].typeName == Some(TypeName(s.fields[i].fieldType)) &&
      spec.fields.value[i].length == Some(s.fields[i].length)
  {
    SchemaSpec(Some(FormatRecords(s.fields)))
  }

  /** The lambda of `parse` on one record: `f['name']`, then
      `SchemaFieldType[f['type']]`, then `f.get('length', 1)`. */
  function ParseRecord(rec: FieldRecord): (r: Result<SchemaField, Error>)
    ensures rec.name.None? ==> r == Err(KeyError("name"))
    ensures rec.name.Some? && rec.typeName.None? ==> r == Err(KeyError("type"))
    ensures rec.name.Some? && rec.typeName.Some? && TypeFromName(rec.typeName.value).None? ==>
      r == Err(KeyError(rec.typeName.value))
    ensures r.Ok? <==> rec.name.Some? && rec.typeName.Some? && exists t :: TypeName(t) == rec.typeName.value
    ensures r.Ok? ==>
      r.value.name == rec.name.value &&
      TypeName(r.value.fieldType) == rec.typeName.value &&
      r.value.length == (if rec.length.Some? then rec.length.value else 1)
  {
    if rec.name.None? then Err(KeyError("name"))
    else if rec.typeName.None? then Err(KeyError("type"))
    else match TypeFromName(rec.typeName.value)
      case None => Err(KeyError(rec.typeName.value))
      case Some(t) => Ok(SchemaField(rec.name.value, t, if rec.length.Some? then rec.length.value else 1))
  }

  /** The eager `map` of `parse` over the records: every field in order, or
      the error of the first record that fails. */
  function ParseRecords(records: seq<FieldRecord>): (r: Result<seq<SchemaField>, Error>)
    ensures r.Ok? ==>
      |r.value| == |records| &&
      forall i :: 0 <= i < |records| ==> ParseRecord(records[i]) == Ok(r.value[i])
    ensures r.Err? ==>
      exists i :: 0 <= i < |records| && ParseRecord(records[i]) == Err(r.error) &&
        forall j :: 0 <= j < i ==> ParseRecord(records[j]).Ok?
  {
    if records == [] then Ok([])
    else match ParseRecord(records[0])
      case Err(e) => Err(e)
      case Ok(f) =>
        match ParseRecords(records[1..])
        case Err(e) => Err(e)
        case Ok(rest) => Ok([f] + rest)
  }

  /** `Schema.parse(spec)`: a schema is returned as it is; a document is read
      record by record and the schema constructed from the result. */
  function Parse(input: ParseInput): (r: Result<Schema, Error>)
    ensures input.Parsed? ==> r == Ok(input.schema)
    ensures input.Document? && input.spec.fields.None? ==> r == Err(KeyError("fields"))
    ensures input.Document? && input.spec.fields == Some([]) ==> r == Err(ValueError(EmptyFieldsMessage))
    ensures input.Document? ==>
      (r.Ok? <==> input.spec.fields.Some? && |input.spec.fields.value| > 0 &&
                  ParseRecords(input.spec.fields.value).Ok?)
    ensures input.Document? && input.spec.fields.Some? && ParseRecords(input.spec.fields.value).Err? ==>
      r == Err(ParseRecords(input.spec.fields.value).error)
    ensures input.Document? && r.Ok? ==>
      r.value.Valid() && input.spec.fields.Some? &&
      |r.value.fields| == |input.spec.fields.value| &&
      forall i :: 0 <= i < |r.value.fields| ==> ParseRecord(input.spec.fields.value[i]) == Ok(r.value.fields[i])
  {
    match input
    case Parsed(s) => Ok(s)
    case Document(spec) =>
      match spec.fields
      case None => Err(KeyError("fields"))
      case Some(records) =>
        match ParseRecords(records)
        case Err(e) => Err(e)
        case Ok(fields) => Construct(fields)
  }

  /** A record with an unknown type name makes `parse` fail with that name,
      provided every earlier record is well formed. */
  lemma ParseUnknownTypeFails(records: seq<FieldRecord>, i: int)
    requires 0 <= i < |records|
    requires forall j :: 0 <= j < i ==> ParseRecord(records[j]).Ok?
    requires records[i].name.Some? && records[i].typeName.Some?
    requires forall t :: TypeName(t) != records[i].typeName.value
    ensures Parse(Document(SchemaSpec(Some(records)))) == Err(KeyError(records[i].typeName.value))
  {
  }

  /** A record without a `length` key gives a field of length 1. */
  lemma ParseDefaultsLength(name: string, t: SchemaFieldType)
    ensures Parse(Document(SchemaSpec(Some([FieldRecord(Some(name), Some(TypeName(t)), None)])))) ==
      Ok(Construct([SchemaField(name, t, 1)]).value)
  {
    var rec := FieldRecord(Some(name), Some(TypeName(t)), None);
    TypeNameRoundTrip(t);
    assert ParseRecord(rec) == Ok(SchemaField(name, t, 1));
    var r := ParseRecords([rec]);
    assert r.Ok?;
    assert r.value == [SchemaField(name, t, 1)];
  }

  /** Parsing the records `format` writes gives back the same field list. */
  lemma ParseFormatRecords(fields: seq<SchemaField>)
    ensures ParseRecords(FormatRecords(fields)) == Ok(fields)
  {
    var records := FormatRecords(fields);
    forall i | 0 <= i < |fields|
      ensures ParseRecord(records[i]) == Ok(fields[i])
    {
      TypeNameRoundTrip(fields[i].fieldType);
    }
    var r := ParseRecords(records);
    assert r.Ok?;
    assert r.value == fields;
  }

  /** Round trip: parsing the document a schema formats to rebuilds that
      schema: the same fields (names, types and lengths) in the same order,
      and the same name map. */
  lemma ParseFormatRoundTrip(s: Schema)
    requires s.Valid()
    ensures Parse(Document(Format(s))) == Ok(s)
  {
    ParseFormatRecords(s.fields);
  }

  /** The example of a three-field schema: `age`, `city` and `score`. */
  lemma ThreeFieldExample()
    ensures
      var s := Construct([IntegerField("age"), DiscreteField("city"), RealField("score", 0)]).value;
      && Len(s) == 3
      && FieldNames(s) == ["age", "city", "score"]
      && GetByName(s, "city").Some? && GetByName(s, "city").value.fieldType == Discrete
      && GetAt(s, 5) == Ok(None)
      && Format(s).fields.value[2].length == Some(0)
  {
  }
}
