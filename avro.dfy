/**
 * The slice of Apache Avro's generic API that the joiner uses: field
 * values, record schemas as ordered field lists, `GenericRecord.get` by
 * field name, and `GenericRecordBuilder` with its `set` and `build`.
 * A field's type is kept as an opaque payload (its schema text), so a
 * renamed field can be shown to carry it over unchanged.
 */
module Avro {

  import opened Wrappers
  import opened JavaText

  /** A field value as `GenericRecord.get` hands it out; `Null` is Java's null. */
  datatype Value =
    | Null
    | LongValue(l: int64)
    | IntValue(i: int32)
    | StringValue(s: string)
    | BoolValue(b: bool)
    | OtherValue(text: string)  // doubles, bytes, nested records: only their toString text is kept

  /** `String.valueOf(Object)` of a field value. */
  function ValueText(v: Value): (r: string)
    ensures v.Null? ==> r == "null"
    ensures v.StringValue? ==> r == v.s
  {
    match v
    case Null => "null"
    case LongValue(l) => LongText(l as int)
    case IntValue(i) => LongText(i as int)
    case StringValue(s) => s
    case BoolValue(b) => if b then "true" else "false"
    case OtherValue(t) => t
  }

  /** A schema field: name, type (opaque), doc, default (None: no default), aliases. */
  datatype Field = Field(name: string, fieldSchema: string, doc: string, defaultVal: Option<Value>, aliases: seq<string>)

  /** A record schema: full name parts, doc, error flag and the ordered fields. */
  datatype Schema = Schema(name: string, doc: string, namespace: string, isError: bool, fields: seq<Field>)

  /** Avro refuses a record schema with two fields of one name. */
  predicate DistinctNames(fields: seq<Field>) {
    forall i, j :: 0 <= i < j < |fields| ==> fields[i].name != fields[j].name
  }

  /** A character that may start an Avro name: a letter or `_`. */
  predicate IsNameStart(c: char) {
    'A' <= c <= 'Z' || 'a' <= c <= 'z' || c == '_'
  }

  /** A character that may follow in an Avro name: a letter, a digit or `_`. */
  predicate IsNameChar(c: char) {
    IsNameStart(c) || '0' <= c <= '9'
  }

  /** The names `Schema.validateName` accepts: not empty, a letter or `_` first, then letters, digits or `_`. */
  predicate IsAvroName(s: string) {
    |s| > 0 && IsNameStart(s[0]) && forall i :: 1 <= i < |s| ==> IsNameChar(s[i])
  }

  /** A generic record: a schema and one value per field, in field order. */
  datatype Record = Record(schema: Schema, values: seq<Value>)

  predicate WellFormed(r: Record) {
    |r.values| == |r.schema.fields| && DistinctNames(r.schema.fields)
  }

  /** `Schema.getField(name)`: the position of the field called `name`, if any. */
  function FieldIndex(fields: seq<Field>, name: string): (r: Option<nat>)
    ensures r.Some? ==> r.value < |fields| && fields[r.value].name == name
    ensures r.None? <==> forall i :: 0 <= i < |fields| ==> fields[i].name != name
  {
    if fields == [] then None
    else if fields[|fields| - 1].name == name then Some(|fields| - 1)
    else FieldIndex(fields[..|fields| - 1], name)
  }

  /** With distinct names, the position of a field is the one whose name it is. */
  lemma FieldIndexOf(fields: seq<Field>, i: nat)
    requires i < |fields| && DistinctNames(fields)
    ensures FieldIndex(fields, fields[i].name) == Some(i)
  {
  }

  /** `GenericRecord.get(name)`: the field's value, or null when the schema has no such field. */
  function Get(r: Record, name: string): (v: Value)
    requires |r.values| == |r.schema.fields|
    ensures FieldIndex(r.schema.fields, name).None? ==> v == Null
    ensures FieldIndex(r.schema.fields, name).Some? ==> v == r.values[FieldIndex(r.schema.fields, name).value]
  {
    match FieldIndex(r.schema.fields, name)
    case None => Null
    case Some(i) => r.values[i]
  }

  /** The exceptions the Avro calls of the joiner can throw. */
  datatype AvroError =
    | NullName(field: string)        // a field with no alias: `new Field(null, ...)` / `set(null, ...)`
    | IllegalName(name: string)      // `new Field(name, ...)` with a name outside Avro's name rule
    | DuplicateField(name: string)   // `Schema.createRecord` with two fields of one name
    | NotASchemaField(name: string)  // `GenericRecordBuilder.set` of a name the schema lacks
    | NoDefault(name: string)        // `build()` with a field neither set nor defaulted

  /** `Schema.createRecord(name, doc, namespace, isError, fields)`: fails on the first repeated name. */
  function CreateRecord(name: string, doc: string, namespace: string, isError: bool, fields: seq<Field>): (r: Result<Schema, AvroError>)
    ensures r.Ok? <==> DistinctNames(fields)
    ensures r.Ok? ==> r.value == Schema(name, doc, namespace, isError, fields)
    ensures r.Err? ==> r.error.DuplicateField? && exists i :: 0 <= i < |fields| && fields[i].name == r.error.name
  {
    match FirstRepeat(fields)
    case Some(n) => Err(DuplicateField(n))
    case None => Ok(Schema(name, doc, namespace, isError, fields))
  }

  /** The first name, in field order, that an earlier field already has. */
  function FirstRepeat(fields: seq<Field>): (r: Option<string>)
    ensures r.None? <==> DistinctNames(fields)
    ensures r.Some? ==> exists i :: 0 <= i < |fields| && fields[i].name == r.value
  {
    if fields == [] then None
    else match FirstRepeat(fields[..|fields| - 1])
      case Some(n) => Some(n)
      case None =>
        var last := fields[|fields| - 1];
        if FieldIndex(fields[..|fields| - 1], last.name).Some? then Some(last.name) else None
  }

  /** The value `build()` puts in one field: the one set, else the default. */
  function Resolve(f: Field, slot: Option<Value>): Result<Value, AvroError> {
    match slot
    case Some(v) => Ok(v)
    case None => if f.defaultVal.Some? then Ok(f.defaultVal.value) else Err(NoDefault(f.name))
  }

  /** The values `build()` fills in, field by field; the first field without a value fails it. */
  function BuildValues(fields: seq<Field>, slots: seq<Option<Value>>): (r: Result<seq<Value>, AvroError>)
    requires |slots| == |fields|
    ensures r.Ok? ==> |r.value| == |fields|
    ensures r.Ok? <==> forall i :: 0 <= i < |fields| ==> Resolve(fields[i], slots[i]).Ok?
    ensures r.Ok? ==> forall i :: 0 <= i < |fields| ==> Resolve(fields[i], slots[i]) == Ok(r.value[i])
  {
    if fields == [] then Ok([])
    else
      var n := |fields| - 1;
      match BuildValues(fields[..n], slots[..n])
      case Err(e) => Err(e)
      case Ok(vs) =>
        match Resolve(fields[n], slots[n])
        case Err(e) => Err(e)
        case Ok(v) => Ok(vs + [v])
  }

  /** `GenericRecordBuilder`: a schema and, per field, the value set so far. */
  class RecordBuilder {
    const schema: Schema
    var slots: seq<Option<Value>>

    ghost predicate Valid()
      reads this
    {
      |slots| == |schema.fields|
    }

    /** A builder with no field set. */
    constructor (schema: Schema)
      ensures Valid() && this.schema == schema
      ensures forall i :: 0 <= i < |slots| ==> slots[i].None?
    {
      this.schema := schema;
      slots := seq(|schema.fields|, _ => None);
    }

    /** `set(name, value)`: store the value in the field of that name, or throw if there is none. */
    method Set(name: string, v: Value) returns (outcome: Outcome<AvroError>)
      requires Valid()
      modifies this
      ensures Valid()
      ensures outcome.Fail? <==> FieldIndex(schema.fields, name).None?
      ensures outcome.Fail? ==> outcome.error == NotASchemaField(name) && slots == old(slots)
      ensures outcome.Pass? ==> slots == old(slots)[FieldIndex(schema.fields, name).value := Some(v)]
    {
      var i := FieldIndex(schema.fields, name);
      if i.None? {
        return Fail(NotASchemaField(name));
      }
      slots := slots[i.value := Some(v)];
      outcome := Pass;
    }

    /** `build()`: a record with every field's value, set or defaulted. */
    method Build() returns (r: Result<Record, AvroError>)
      requires Valid()
      ensures r.Ok? <==> BuildValues(schema.fields, slots).Ok?
      ensures r.Ok? ==> r.value == Record(schema, BuildValues(schema.fields, slots).value)
      ensures r.Err? ==> r == Err(BuildValues(schema.fields, slots).error)
    {
      var values: seq<Value> := [];
      var i := 0;
      while i < |slots|
        invariant 0 <= i <= |slots|
        invariant BuildValues(schema.fields[..i], slots[..i]) == Ok(values)
      {
        assert schema.fields[..i + 1][..i] == schema.fields[..i];
        assert slots[..i + 1][..i] == slots[..i];
        var v := Resolve(schema.fields[i], slots[i]);
        if v.Err? {
          BuildFails(schema.fields, slots, i + 1);
          return Err(v.error);
        }
        values := values + [v.value];
        i := i + 1;
      }
      assert schema.fields[..i] == schema.fields && slots[..i] == slots;
      r := Ok(Record(schema, values));
    }
  }

  /** An error in the first k fields is the error of the whole build. */
  lemma {:induction false} BuildFails(fields: seq<Field>, slots: seq<Option<Value>>, k: nat)
    requires |slots| == |fields| && k <= |fields|
    requires BuildValues(fields[..k], slots[..k]).Err?
    ensures BuildValues(fields, slots) == BuildValues(fields[..k], slots[..k])
    decreases |fields| - k
  {
    if k < |fields| {
      var n := |fields| - 1;
      assert fields[..n][..k] == fields[..k] && slots[..n][..k] == slots[..k];
      BuildFails(fields[..n], slots[..n], k);
    } else {
      assert fields[..k] == fields && slots[..k] == slots;
    }
  }
}
