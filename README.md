# A verified model of the TensorFX data schema

`src/data/_schema.py` describes the shape of raw tabular data before it is
turned into features: a `Schema` is an ordered, non-empty list of
`SchemaField`s, each with a name, a `SchemaFieldType` (`integer`, `real` or
`discrete`) and a length (values per record, 0 for variable length). A schema
can be built directly, through the variadic `Schema.create`, or by
`Schema.parse` from the document that `Schema.format` writes. Fields are looked
up by position or by name, listed by name, iterated and counted. No method
assigns to a field's or a schema's attributes after construction.

The model is in two files:

- `wrappers.dfy` (module `Wrappers`): `Option` for Python's `None` result and
  `Result` for an operation that raises.
- `schema.dfy` (module `DataSchema`): the enum, the field record, the schema
  with the name map it builds at construction, every operation as a function
  (and `__iter__`'s generator loop as the method `Iterate`), and the lemmas.

Modelling choices:

- The accessors `name`, `type` and `length` are the destructors of the
  `SchemaField` datatype (`type` is spelled `fieldType`, a keyword otherwise).
- `schema[index]` dispatches on `type(index) is int`. The model has one
  function per branch: `GetAt` for an integer and `GetByName` for a name.
- `Schema.parse(spec)` dispatches on `isinstance(spec, Schema)`. Its argument
  is the tagged union `ParseInput`: `Parsed(schema)` or `Document(spec)`.
- `format` and `parse` work on the document that YAML would hold: a
  `SchemaSpec` with an optional `fields` list of `FieldRecord`s. A record's
  `name`, `type` and `length` keys may each be absent.
- The arguments of `create(*args)` are `CreateArg`s: a field or a list of
  fields.
- Exceptions are `Err` values of `Error`, carrying the message or key that
  Python raises with. `ValueError` is raised on an empty list, and the two
  call sites word it differently. `KeyError` is raised on a missing key or an
  unknown type name. `IndexError` is raised for an integer index below
  `-len`. `AttributeError` is raised when `create` is given a list after its
  first argument.
- The code targets Python 2, where `map` returns a list. So `fields`,
  `format` and `parse` produce sequences.
- Names are not required to be unique, and lengths are not required to be
  non-negative. The source does not check either, so neither does the model.
  A later field with a repeated name overrides the earlier one in the name
  map, but both still appear in positional order.

Where the module's documented contract and its code differ, the model follows
the code. Integer lookup is documented (lines 174-175) to return `None`
whenever the index is not a position of the list. The code guards only with
`len > index`. So a negative index from `-len` to `-1` counts from the end, and
an index below `-len` raises `IndexError` (see "## Findings").

Two further facts about the code:

- An unknown type name during `parse` raises `KeyError`, from
  `SchemaFieldType[...]` on line 159.
- Under Python 2, `fields` returns a list. Only `__iter__` is a generator.

## Model

| member | source | states |
|---|---|---|
| `DataSchema.TypeName` | src/data/_schema.py:23-25 | the name written for each member is fixed: `integer`, `real` and `discrete`, each naming exactly one member, so the written form identifies the type |
| `DataSchema.TypeFromName` | src/data/_schema.py:20-25 | `SchemaFieldType[n]` succeeds exactly when `n` is the name of a member, and then returns the member whose name is `n` |
| `DataSchema.TypeNameRoundTrip` | src/data/_schema.py:20-25 | looking up a member by its own name gives that member back |
| `DataSchema.Numeric` | src/data/_schema.py:93-97 | `numeric` holds exactly when the type is not `discrete`, so it holds for `integer` and `real` |
| `DataSchema.DiscreteField` | src/data/_schema.py:45-53 | `discrete(name, length=1)` gives a field with that name and length, of type `discrete`, which is not numeric |
| `DataSchema.IntegerField` | src/data/_schema.py:55-63 | `integer(name, length=1)` gives a field with that name and length, of type `integer`, which is numeric |
| `DataSchema.RealField` | src/data/_schema.py:65-73 | `real(name, length=1)` gives a field with that name and length, of type `real`, which is numeric |
| `DataSchema.FieldMap` | src/data/_schema.py:115 | the name map's keys are exactly the names that occur in the field list |
| `DataSchema.FieldMapLastWins` | src/data/_schema.py:115 | the last field in the list that has a given name is the one the map holds for that name (later duplicates win) |
| `DataSchema.FieldMapEntryIsLast` | src/data/_schema.py:115 | every entry of the map is the last field in the list with its name |
| `DataSchema.FieldMapLookup` | src/data/_schema.py:115 | a name is missing from the map exactly when no field has it; otherwise the map holds the last field in the list with that name |
| `DataSchema.Construct` | src/data/_schema.py:105-115 | `Schema(fields)` fails with `ValueError` exactly when the list is empty; otherwise the schema keeps the list as given and its map is built from it |
| `DataSchema.ArgFields` | src/data/_schema.py:132 | `list(args)` can be read as fields exactly when no argument is a list; it then holds every argument in order, otherwise reading `.name` raises `AttributeError` |
| `DataSchema.Create` | src/data/_schema.py:117-132 | `create()` with no arguments fails with `ValueError`; a list as the first argument gives a schema of exactly that list and ignores the rest; otherwise the schema holds all arguments in order |
| `DataSchema.CreateLength` | src/data/_schema.py:126-132 | the length of a created schema is the number of fields supplied |
| `DataSchema.Len` | src/data/_schema.py:188-191 | a constructed schema has at least one field |
| `DataSchema.FieldNames` | src/data/_schema.py:163-167 | `fields` lists one name per field, in schema order |
| `DataSchema.Iterate` | src/data/_schema.py:182-186 | iteration yields exactly the fields in schema order; their count equals `len` and the number of names, and their names are the `fields` names |
| `DataSchema.ListIndex` | src/data/_schema.py:178 | Python list subscription: `0 <= i < len` gives element `i`, `-len <= i < 0` gives element `len + i`, and any other index raises `IndexError` |
| `DataSchema.GetAt` | src/data/_schema.py:177-178 | an integer index `>= len` gives `None`; `0 <= i < len` gives field `i`; `-len <= i < 0` gives field `len + i`; below `-len` raises `IndexError` |
| `DataSchema.GetAtRaisesBelowMinusLength` | src/data/_schema.py:178 | the index `-len - 1` raises `IndexError` rather than giving `None` |
| `DataSchema.GetAtIntended` | src/data/_schema.py:169-178 | the documented integer lookup: a field exactly for `0 <= i < len`, the field at `i`, and the same answer as the code for every non-negative index |
| `DataSchema.GetByName` | src/data/_schema.py:177-180 | name lookup gives the map's entry, or `None` when the name is not a key. On a constructed schema it gives `None` exactly when no field has the name, and otherwise the last field in the list with that name |
| `DataSchema.FieldNamesCanBeLookedUp` | src/data/_schema.py:163-180 | every name that `fields` lists can be looked up, and the lookup gives a field of that name |
| `DataSchema.FormatField` | src/data/_schema.py:140 | the record written for a field parses back to that same field |
| `DataSchema.FormatRecords` | src/data/_schema.py:140-141 | `format` writes one record per field, in order, each being `{name, type name, length}` of its field |
| `DataSchema.Format` | src/data/_schema.py:134-144 | the formatted document has a `fields` list with one record per field, in schema order, each holding the field's name, type name and length |
| `DataSchema.ParseRecord` | src/data/_schema.py:159 | a record parses exactly when it has a `name` and a `type` that names a member. A missing `name`, a missing `type` or an unknown type name each raise `KeyError` with that key. A parsed field has the record's name and type, and its length defaults to 1 |
| `DataSchema.ParseRecords` | src/data/_schema.py:159-160 | records parse to one field each, in order, or the parse fails with the error of the first record that does not parse |
| `DataSchema.Parse` | src/data/_schema.py:146-161 | a schema is returned unchanged; a document without `fields` raises `KeyError` and an empty list raises `ValueError`. A document parses exactly when its `fields` list is non-empty and every record parses. It then gives a constructed schema whose fields are its records parsed in order. Otherwise the error is the one from the first record that fails |
| `DataSchema.ParseUnknownTypeFails` | src/data/_schema.py:159 | a record with an unknown type name, after well-formed records, makes `parse` fail with `KeyError` of that name |
| `DataSchema.ParseDefaultsLength` | src/data/_schema.py:159 | a record without `length` gives a field of length 1 |
| `DataSchema.ParseFormatRecords` | src/data/_schema.py:140-160 | parsing the records `format` writes gives back the same field list |
| `DataSchema.ParseFormatRoundTrip` | src/data/_schema.py:134-161 | `parse(format(s))` rebuilds `s`: the same (name, type, length) fields in the same order, and the same name map |
| `DataSchema.ThreeFieldExample` | src/data/_schema.py:105-191 | for fields `age` (integer), `city` (discrete) and `score` (real, length 0), the schema has length 3 and lists the three names in order. `city` looks up a discrete field, index 5 gives `None`, and the third formatted record has length 0 |

## Findings

| source | as written | input that shows it | evidently intended | confidence | as-written member | corrected member |
|---|---|---|---|---|---|---|
| src/data/_schema.py:178 | `self._fields[index] if len(self._fields) > index else None` guards only the upper bound | index `-2` on a one-field schema raises `IndexError` | the docstring (lines 174-175) promises the field if it exists and `None` otherwise, so any index outside `[0, len)` gives `None` | medium, not executed | `DataSchema.GetAtRaisesBelowMinusLength` | `DataSchema.GetAtIntended` |

## Left out

- YAML text: `yaml.safe_dump` and `yaml.safe_load` are a foreign library. The model's `format` ends, and its `parse` starts, at the loaded document (`SchemaSpec`).
- Documents that are not a mapping, records that are not mappings, values that are not strings or integers, and `length: null`. These are all shapes of the YAML data that the typed document cannot hold.
- `Create` models arguments that are fields or lists of fields. Another object without `.name` would also raise `AttributeError`, with a message naming its own type.
- `GetAt`: under Python 2 an index outside the machine `int` range is a `long`, and a `bool` index is not of type `int`. Both take the name branch and give `None`. The model treats every integer index as an `int`.
- `GetByName`: names are modelled as strings. Keys of other types are not modelled, for example a Python 2 `unicode` key that equals a `str` name.
- `Iterate` collects the values the generator yields. It does not model laziness or interleaving with the caller.
- `Construct`, `Create`: `Schema.__init__` keeps the caller's list object itself (line 114), and `create` passes a list argument through unchanged (line 130). If the caller later mutates that list, `len`, `fields`, positional lookup, iteration and `format` see the change, but `_field_map` does not. The model takes the list as a value, so this aliasing is not captured, and `Valid()` assumes the list and the map stay in step.
- The TODO about default values (line 43) has no behaviour behind it.
