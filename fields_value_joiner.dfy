/**
 * `AvroFieldsValueJoiner`: joins a left and a right record into one whose
 * fields are the left fields renamed through the left map followed by the
 * right fields renamed through the right map. The merged schema is built
 * on the first call and cached in the joiner for every later call.
 */
module FieldsValueJoiner {

  import opened Wrappers
  import opened Avro

  /** `new Field(alias, f.schema(), f.doc(), f.defaultVal())`: the same type, doc and default under a new name, without the old aliases. */
  function Renamed(f: Field, alias: string): (r: Field)
    ensures r.name == alias && r.fieldSchema == f.fieldSchema && r.doc == f.doc && r.defaultVal == f.defaultVal
  {
    Field(alias, f.fieldSchema, f.doc, f.defaultVal, [])
  }

  /** The Field constructor accepts the alias of `f`: there is one, and it is an Avro name. */
  predicate Renamable(f: Field, m: map<string, string>) {
    f.name in m && IsAvroName(m[f.name])
  }

  /** Every field of the list can be renamed through the map. */
  predicate AllRenamable(fields: seq<Field>, m: map<string, string>) {
    forall i :: 0 <= i < |fields| ==> Renamable(fields[i], m)
  }

  /** What `new Field(m.get(f.name()), ...)` throws for a field it cannot rename: a null name, or one `validateName` refuses. */
  function RenameError(f: Field, m: map<string, string>): (e: AvroError)
    requires !Renamable(f, m)
    ensures e.NullName? <==> f.name !in m
  {
    if f.name !in m then NullName(f.name) else IllegalName(m[f.name])
  }

  /** `mapFields(s, m)`: each field renamed to its alias, in schema order; the first field the Field constructor refuses ends it. */
  function MappedFields(fields: seq<Field>, m: map<string, string>): (r: Result<seq<Field>, AvroError>)
    ensures r.Ok? <==> AllRenamable(fields, m)
    ensures r.Ok? ==> |r.value| == |fields|
    ensures r.Ok? ==> forall i :: 0 <= i < |fields| ==> r.value[i] == Renamed(fields[i], m[fields[i].name])
  {
    if fields == [] then Ok([])
    else
      var n := |fields| - 1;
      match MappedFields(fields[..n], m)
      case Err(e) => Err(e)
      case Ok(fs) =>
        if Renamable(fields[n], m) then Ok(fs + [Renamed(fields[n], m[fields[n].name])])
        else Err(RenameError(fields[n], m))
  }

  /** The loop of `mapFields`: append each renamed field to a fresh list. */
  method MapFields(s: Schema, m: map<string, string>) returns (r: Result<seq<Field>, AvroError>)
    ensures r == MappedFields(s.fields, m)
  {
    var fs: seq<Field> := [];
    var i := 0;
    while i < |s.fields|
      invariant 0 <= i <= |s.fields|
      invariant MappedFields(s.fields[..i], m) == Ok(fs)
    {
      var f := s.fields[i];
      assert s.fields[..i + 1][..i] == s.fields[..i];
      if f.name !in m {
        MappedFieldsFails(s.fields, m, i + 1);
        return Err(NullName(f.name));
      }
      var alias := m[f.name];
      if !IsAvroName(alias) {
        MappedFieldsFails(s.fields, m, i + 1);
        return Err(IllegalName(alias));
      }
      fs := fs + [Renamed(f, alias)];
      i := i + 1;
    }
    assert s.fields[..i] == s.fields;
    r := Ok(fs);
  }

  /** An error in a prefix of the fields is the error of the whole list. */
  lemma {:induction false} MappedFieldsFails(fields: seq<Field>, m: map<string, string>, k: nat)
    requires k <= |fields| && MappedFields(fields[..k], m).Err?
    ensures MappedFields(fields, m) == MappedFields(fields[..k], m)
    decreases |fields| - k
  {
    if k < |fields| {
      var n := |fields| - 1;
      assert fields[..n][..k] == fields[..k];
      MappedFieldsFails(fields[..n], m, k);
    } else {
      assert fields[..k] == fields;
    }
  }

  /** The error is that of the first field, in schema order, whose alias is missing or not an Avro name. */
  lemma {:induction false} MappedFieldsFirstBad(fields: seq<Field>, m: map<string, string>) returns (i: nat)
    requires !AllRenamable(fields, m)
    ensures i < |fields| && !Renamable(fields[i], m) && (forall j :: 0 <= j < i ==> Renamable(fields[j], m))
    ensures MappedFields(fields, m) == Err(RenameError(fields[i], m))
  {
    var n := |fields| - 1;
    if AllRenamable(fields[..n], m) {
      i := n;
    } else {
      i := MappedFieldsFirstBad(fields[..n], m);
    }
  }

  /** An alias with a hyphen, an empty alias and one starting with a digit are all refused, at the first field that has one. */
  lemma MappedFieldsIllegal(a: Field, b: Field)
    requires a.name == "a" && b.name == "b"
    ensures MappedFields([a], map["a" := "event-time"]) == Err(IllegalName("event-time"))
    ensures MappedFields([a], map["a" := ""]) == Err(IllegalName(""))
    ensures MappedFields([a, b], map["a" := "1x"]) == Err(IllegalName("1x"))
  {
    assert [a, b][..1] == [a];
    assert !IsAvroName("event-time") by {
      assert "event-time"[5] == '-';
    }
  }

  /** The merged schema: renamed left fields, then renamed right fields, as record `io.ninety.myschema`. */
  function MergedSchema(left: Schema, right: Schema, lm: map<string, string>, rm: map<string, string>): (r: Result<Schema, AvroError>)
    ensures r.Ok? ==> |r.value.fields| == |left.fields| + |right.fields| && DistinctNames(r.value.fields)
    ensures r.Ok? ==> forall i :: 0 <= i < |r.value.fields| ==> IsAvroName(r.value.fields[i].name)
  {
    match MappedFields(left.fields, lm)
    case Err(e) => Err(e)
    case Ok(lf) =>
      match MappedFields(right.fields, rm)
      case Err(e) => Err(e)
      case Ok(rf) => CreateRecord("myschema", "mydoc", "io.ninety", false, lf + rf)
  }

  /** The field list of the merged schema, when every field has an alias. */
  function MergedFields(left: Schema, right: Schema, lm: map<string, string>, rm: map<string, string>): seq<Field>
    requires AllRenamable(left.fields, lm) && AllRenamable(right.fields, rm)
  {
    MappedFields(left.fields, lm).value + MappedFields(right.fields, rm).value
  }

  /**
   * The merged schema exists exactly when every left and right field has an
   * alias that is an Avro name and the aliases are pairwise distinct; it then holds the renamed
   * left fields in left order followed by the renamed right fields in right
   * order, so its size is the sum of the two.
   */
  lemma MergedSchemaShape(left: Schema, right: Schema, lm: map<string, string>, rm: map<string, string>)
    ensures MergedSchema(left, right, lm, rm).Ok? <==>
      AllRenamable(left.fields, lm) && AllRenamable(right.fields, rm) && DistinctNames(MergedFields(left, right, lm, rm))
    ensures MergedSchema(left, right, lm, rm).Ok? ==>
      var s := MergedSchema(left, right, lm, rm).value;
      var nl := |left.fields|;
      && s.name == "myschema" && s.doc == "mydoc" && s.namespace == "io.ninety" && !s.isError
      && |s.fields| == nl + |right.fields|
      && (forall i :: 0 <= i < nl ==> s.fields[i] == Renamed(left.fields[i], lm[left.fields[i].name]))
      && (forall i :: nl <= i < |s.fields| ==> s.fields[i] == Renamed(right.fields[i - nl], rm[right.fields[i - nl].name]))
  {
    var lf := MappedFields(left.fields, lm);
    var rf := MappedFields(right.fields, rm);
    if lf.Ok? && rf.Ok? {
      var fs := lf.value + rf.value;
      assert MergedFields(left, right, lm, rm) == fs;
      assert MergedSchema(left, right, lm, rm) == CreateRecord("myschema", "mydoc", "io.ninety", false, fs);
      RenamedConcat(left.fields, right.fields, lm, rm, lf.value, rf.value);
    }
  }

  /** Renamed lists side by side: the left renamings at the front, the right ones after them. */
  lemma RenamedConcat(lfs: seq<Field>, rfs: seq<Field>, lm: map<string, string>, rm: map<string, string>,
                      lf: seq<Field>, rf: seq<Field>)
    requires |lf| == |lfs| && forall i :: 0 <= i < |lfs| ==> lfs[i].name in lm && lf[i] == Renamed(lfs[i], lm[lfs[i].name])
    requires |rf| == |rfs| && forall j :: 0 <= j < |rfs| ==> rfs[j].name in rm && rf[j] == Renamed(rfs[j], rm[rfs[j].name])
    ensures |lf + rf| == |lfs| + |rfs|
    ensures forall i :: 0 <= i < |lfs| ==> (lf + rf)[i] == Renamed(lfs[i], lm[lfs[i].name])
    ensures forall i :: |lfs| <= i < |lf + rf| ==> (lf + rf)[i] == Renamed(rfs[i - |lfs|], rm[rfs[i - |lfs|].name])
  {
  }

  /** The (name, value) pairs `mergeValue` walks: each field of the record with `r.get(name)`. */
  function Pairs(r: Record): (ps: seq<(string, Value)>)
    requires |r.values| == |r.schema.fields|
    ensures |ps| == |r.values|
    ensures WellFormed(r) ==> forall k :: 0 <= k < |ps| ==> ps[k] == (r.schema.fields[k].name, r.values[k])
  {
    var ps := seq(|r.values|, k requires 0 <= k < |r.values| => (r.schema.fields[k].name, Get(r, r.schema.fields[k].name)));
    if WellFormed(r) then
      forall k | 0 <= k < |ps| ensures ps[k] == (r.schema.fields[k].name, r.values[k]) {
        FieldIndexOf(r.schema.fields, k);
      }
      ps
    else ps
  }

  /** The builder's slots after a run of `set` calls, and the exception that stopped it, if any. */
  datatype Merged = Merged(slots: seq<Option<Value>>, failure: Option<AvroError>)

  /** `mergeValue`: `b.set(m.get(name), value)` for each pair in turn; the first that throws ends it. */
  function Merge(target: seq<Field>, slots: seq<Option<Value>>, pairs: seq<(string, Value)>, m: map<string, string>): (r: Merged)
    requires |slots| == |target|
    ensures |r.slots| == |target|
    decreases |pairs|
  {
    if pairs == [] then Merged(slots, None)
    else
      var n := |pairs| - 1;
      var prev := Merge(target, slots, pairs[..n], m);
      if prev.failure.Some? then prev
      else if pairs[n].0 !in m then Merged(prev.slots, Some(NullName(pairs[n].0)))
      else
        match FieldIndex(target, m[pairs[n].0])
        case None => Merged(prev.slots, Some(NotASchemaField(m[pairs[n].0])))
        case Some(i) => Merged(prev.slots[i := Some(pairs[n].1)], None)
  }

  /** One more pair after a run that has not failed: its alias must exist and name a target field, whose slot then takes the value. */
  lemma MergeStep(target: seq<Field>, slots: seq<Option<Value>>, ps: seq<(string, Value)>, m: map<string, string>,
                  i: nat, current: seq<Option<Value>>)
    requires |slots| == |target| && i < |ps|
    requires Merge(target, slots, ps[..i], m) == Merged(current, None)
    ensures ps[i].0 !in m ==> Merge(target, slots, ps[..i + 1], m) == Merged(current, Some(NullName(ps[i].0)))
    ensures ps[i].0 in m && FieldIndex(target, m[ps[i].0]).None? ==>
      Merge(target, slots, ps[..i + 1], m) == Merged(current, Some(NotASchemaField(m[ps[i].0])))
    ensures ps[i].0 in m && FieldIndex(target, m[ps[i].0]).Some? ==>
      Merge(target, slots, ps[..i + 1], m) == Merged(current[FieldIndex(target, m[ps[i].0]).value := Some(ps[i].1)], None)
  {
    assert ps[..i + 1][..i] == ps[..i];
  }

  /** MergeStep when the alias names the field at `j`. */
  lemma MergeSets(target: seq<Field>, slots: seq<Option<Value>>, ps: seq<(string, Value)>, m: map<string, string>,
                  i: nat, current: seq<Option<Value>>, j: nat)
    requires |slots| == |target| && i < |ps|
    requires Merge(target, slots, ps[..i], m) == Merged(current, None)
    requires ps[i].0 in m && FieldIndex(target, m[ps[i].0]) == Some(j)
    ensures Merge(target, slots, ps[..i + 1], m) == Merged(current[j := Some(ps[i].1)], None)
  {
    MergeStep(target, slots, ps, m, i, current);
  }

  /** A failure in a prefix of the pairs is the failure of the whole run, with the slots it left. */
  lemma {:induction false} MergeFails(target: seq<Field>, slots: seq<Option<Value>>, pairs: seq<(string, Value)>,
                                      m: map<string, string>, k: nat)
    requires |slots| == |target| && k <= |pairs|
    requires Merge(target, slots, pairs[..k], m).failure.Some?
    ensures Merge(target, slots, pairs, m) == Merge(target, slots, pairs[..k], m)
    decreases |pairs| - k
  {
    if k < |pairs| {
      var n := |pairs| - 1;
      assert pairs[..n][..k] == pairs[..k];
      MergeFails(target, slots, pairs[..n], m, k);
    } else {
      assert pairs[..k] == pairs;
    }
  }

  /** The loop of `mergeValue`, over a builder. */
  method MergeValue(b: RecordBuilder, r: Record, m: map<string, string>) returns (outcome: Outcome<AvroError>)
    requires b.Valid() && |r.values| == |r.schema.fields|
    modifies b
    ensures b.Valid()
    ensures var mg := Merge(b.schema.fields, old(b.slots), Pairs(r), m);
      b.slots == mg.slots && (outcome.Fail? <==> mg.failure.Some?) && (outcome.Fail? ==> outcome.error == mg.failure.value)
  {
    ghost var ps := Pairs(r);
    ghost var start := b.slots;
    var i := 0;
    while i < |r.schema.fields|
      invariant 0 <= i <= |r.schema.fields| && b.Valid()
      invariant Merge(b.schema.fields, start, ps[..i], m) == Merged(b.slots, None)
    {
      var name := r.schema.fields[i].name;
      var val := Get(r, name);
      assert ps[i] == (name, val);
      MergeStep(b.schema.fields, start, ps, m, i, b.slots);
      if name !in m {
        MergeFails(b.schema.fields, start, ps, m, i + 1);
        return Fail(NullName(name));
      }
      outcome := b.Set(m[name], val);
      if outcome.Fail? {
        MergeFails(b.schema.fields, start, ps, m, i + 1);
        return;
      }
      i := i + 1;
    }
    assert ps[..i] == ps;
    outcome := Pass;
  }

  /** The schema a call uses: the cached one, or the merged schema of this call's inputs. */
  function CallSchema(cached: Option<Schema>, left: Record, right: Record, lm: map<string, string>, rm: map<string, string>): Result<Schema, AvroError> {
    if cached.Some? then Ok(cached.value) else MergedSchema(left.schema, right.schema, lm, rm)
  }

  /** The cache after a call: set once the schema has been built, and never changed after that. */
  function CacheAfter(cached: Option<Schema>, left: Record, right: Record, lm: map<string, string>, rm: map<string, string>): Option<Schema> {
    match CallSchema(cached, left, right, lm, rm)
    case Ok(s) => Some(s)
    case Err(_) => None
  }

  /** The record `apply` returns: the schema of the call, then both records copied into it. */
  function Join(cached: Option<Schema>, left: Record, right: Record, lm: map<string, string>, rm: map<string, string>): (r: Result<Record, AvroError>)
    requires |left.values| == |left.schema.fields| && |right.values| == |right.schema.fields|
    ensures r.Ok? ==> |r.value.values| == |r.value.schema.fields|
    ensures r.Ok? && cached.Some? ==> r.value.schema == cached.value
    ensures r.Ok? && cached.None? ==> MergedSchema(left.schema, right.schema, lm, rm) == Ok(r.value.schema)
  {
    match CallSchema(cached, left, right, lm, rm)
    case Err(e) => Err(e)
    case Ok(s) => JoinInto(s, left, right, lm, rm)
  }

  /** Both records merged into a fresh builder of schema `s`, then built. */
  function JoinInto(s: Schema, left: Record, right: Record, lm: map<string, string>, rm: map<string, string>): (r: Result<Record, AvroError>)
    requires |left.values| == |left.schema.fields| && |right.values| == |right.schema.fields|
    ensures r.Ok? ==> r.value.schema == s && |r.value.values| == |s.fields|
  {
    var ml := Merge(s.fields, seq(|s.fields|, _ => None), Pairs(left), lm);
    if ml.failure.Some? then Err(ml.failure.value)
    else
      var mr := Merge(s.fields, ml.slots, Pairs(right), rm);
      if mr.failure.Some? then Err(mr.failure.value)
      else
        match BuildValues(s.fields, mr.slots)
        case Err(e) => Err(e)
        case Ok(vs) => Ok(Record(s, vs))
  }

  /** The joiner: the two alias maps and the cached merged schema. */
  class AvroFieldsValueJoiner {
    var schema: Option<Schema>
    const leftMappings: map<string, string>
    const rightMappings: map<string, string>

    /** `create(leftMappings, rightMappings)`: no schema yet. */
    constructor (leftMappings: map<string, string>, rightMappings: map<string, string>)
      ensures schema.None? && this.leftMappings == leftMappings && this.rightMappings == rightMappings
    {
      this.leftMappings := leftMappings;
      this.rightMappings := rightMappings;
      schema := None;
    }

    /** `apply(leftValue, rightValue)`: build the schema if none is cached, then copy both records into it. */
    method Apply(left: Record, right: Record) returns (r: Result<Record, AvroError>)
      requires |left.values| == |left.schema.fields| && |right.values| == |right.schema.fields|
      modifies this
      ensures schema == CacheAfter(old(schema), left, right, leftMappings, rightMappings)
      ensures r == Join(old(schema), left, right, leftMappings, rightMappings)
    {
      if schema.None? {
        var lf := MapFields(left.schema, leftMappings);
        if lf.Err? {
          return Err(lf.error);
        }
        var rf := MapFields(right.schema, rightMappings);
        if rf.Err? {
          return Err(rf.error);
        }
        var created := CreateRecord("myschema", "mydoc", "io.ninety", false, lf.value + rf.value);
        if created.Err? {
          return Err(created.error);
        }
        schema := Some(created.value);
      }
      var b := new RecordBuilder(schema.value);
      assert b.slots == seq(|schema.value.fields|, _ => None);
      var o := MergeValue(b, left, leftMappings);
      if o.Fail? {
        return Err(o.error);
      }
      o := MergeValue(b, right, rightMappings);
      if o.Fail? {
        return Err(o.error);
      }
      r := b.Build();
    }
  }

  /**
   * Merging pairs whose aliases name the target fields from offset `off`
   * on, in order, fails nowhere and writes their values into exactly those
   * slots.
   */
  lemma {:induction false} MergeCopies(target: seq<Field>, slots: seq<Option<Value>>, ps: seq<(string, Value)>,
                                       m: map<string, string>, vals: seq<Value>, off: nat, n: nat)
    requires |slots| == |target| && n <= |ps| == |vals| && off + |vals| <= |target|
    requires forall k :: 0 <= k < |ps| ==> ps[k].0 in m && FieldIndex(target, m[ps[k].0]) == Some(off + k) && ps[k].1 == vals[k]
    ensures Merge(target, slots, ps[..n], m).failure.None?
    ensures Merge(target, slots, ps[..n], m).slots == Written(slots, off, vals[..n])
    decreases n
  {
    if n == 0 {
      assert ps[..0] == [];
      WrittenNothing(slots, off, vals);
    } else {
      var k := n - 1;
      MergeCopies(target, slots, ps, m, vals, off, k);
      var prev := Merge(target, slots, ps[..k], m);
      MergeSets(target, slots, ps, m, k, prev.slots, off + k);
      WrittenStep(slots, off, vals, k);
    }
  }

  /** The slots with `vals` written from offset `off` on. */
  function Written(slots: seq<Option<Value>>, off: nat, vals: seq<Value>): (w: seq<Option<Value>>)
    requires off + |vals| <= |slots|
    ensures |w| == |slots|
    ensures forall i :: 0 <= i < |w| ==> w[i] == if off <= i < off + |vals| then Some(vals[i - off]) else slots[i]
  {
    slots[..off] + seq(|vals|, i requires 0 <= i < |vals| => Some(vals[i])) + slots[off + |vals|..]
  }

  /** Writing no value leaves the slots. */
  lemma WrittenNothing(slots: seq<Option<Value>>, off: nat, vals: seq<Value>)
    requires off <= |slots|
    ensures Written(slots, off, vals[..0]) == slots
  {
  }

  /** Writing the next value after a written prefix extends the written prefix by one. */
  lemma WrittenStep(slots: seq<Option<Value>>, off: nat, vals: seq<Value>, k: nat)
    requires k < |vals| && off + |vals| <= |slots|
    ensures Written(slots, off, vals[..k])[off + k := Some(vals[k])] == Written(slots, off, vals[..k + 1])
  {
  }

  /**
   * On the first call, when every field has an alias and the aliases are
   * distinct, the joined record is the merged schema holding the left
   * values followed by the right values.
   */
  lemma JoinFirstCall(left: Record, right: Record, lm: map<string, string>, rm: map<string, string>)
    requires WellFormed(left) && WellFormed(right)
    requires MergedSchema(left.schema, right.schema, lm, rm).Ok?
    ensures Join(None, left, right, lm, rm) ==
      Ok(Record(MergedSchema(left.schema, right.schema, lm, rm).value, left.values + right.values))
  {
    var s := MergedSchema(left.schema, right.schema, lm, rm).value;
    AliasesAt(left, right, lm, rm, s);
    FilledByBoth(s.fields, left, right, lm, rm);
    JoinOf(None, left, right, lm, rm, s, left.values + right.values);
  }

  /** Each field of `r` has an alias in `m`, naming the target field `off` places further on. */
  predicate AlignedFrom(target: seq<Field>, r: Record, m: map<string, string>, off: nat) {
    && off + |r.schema.fields| <= |target|
    && forall k :: 0 <= k < |r.schema.fields| ==> r.schema.fields[k].name in m && target[off + k].name == m[r.schema.fields[k].name]
  }

  /** In the merged schema, each left field's alias names the field at its own index and each right field's the one after the left fields. */
  lemma AliasesAt(left: Record, right: Record, lm: map<string, string>, rm: map<string, string>, s: Schema)
    requires WellFormed(left) && WellFormed(right)
    requires MergedSchema(left.schema, right.schema, lm, rm) == Ok(s)
    ensures DistinctNames(s.fields) && |s.fields| == |left.values| + |right.values|
    ensures AlignedFrom(s.fields, left, lm, 0) && AlignedFrom(s.fields, right, rm, |left.values|)
  {
    LeftAliasesAt(left, right, lm, rm, s);
    RightAliasesAt(left, right, lm, rm, s);
  }

  /** The left half of AliasesAt: each left alias names the merged field at the same index. */
  lemma LeftAliasesAt(left: Record, right: Record, lm: map<string, string>, rm: map<string, string>, s: Schema)
    requires WellFormed(left) && WellFormed(right)
    requires MergedSchema(left.schema, right.schema, lm, rm) == Ok(s)
    ensures AlignedFrom(s.fields, left, lm, 0)
  {
    MergedSchemaShape(left.schema, right.schema, lm, rm);
    forall k | 0 <= k < |left.values|
      ensures left.schema.fields[k].name in lm && s.fields[k].name == lm[left.schema.fields[k].name]
    {
      assert s.fields[k] == Renamed(left.schema.fields[k], lm[left.schema.fields[k].name]);
    }
  }

  /** The right half of AliasesAt: each right alias names the merged field past all the left ones. */
  lemma RightAliasesAt(left: Record, right: Record, lm: map<string, string>, rm: map<string, string>, s: Schema)
    requires WellFormed(left) && WellFormed(right)
    requires MergedSchema(left.schema, right.schema, lm, rm) == Ok(s)
    ensures AlignedFrom(s.fields, right, rm, |left.values|)
  {
    MergedSchemaShape(left.schema, right.schema, lm, rm);
    var nl := |left.values|;
    forall k | 0 <= k < |right.values|
      ensures right.schema.fields[k].name in rm && s.fields[nl + k].name == rm[right.schema.fields[k].name]
    {
      var i := nl + k;
      assert i - nl == k;
      assert s.fields[i] == Renamed(right.schema.fields[k], rm[right.schema.fields[k].name]);
    }
  }

  /** Merging the left record and then the right record into target fields named by their aliases fills every slot. */
  lemma FilledByBoth(target: seq<Field>, left: Record, right: Record, lm: map<string, string>, rm: map<string, string>)
    requires WellFormed(left) && WellFormed(right) && DistinctNames(target)
    requires |target| == |left.values| + |right.values|
    requires AlignedFrom(target, left, lm, 0) && AlignedFrom(target, right, rm, |left.values|)
    ensures var ml := Merge(target, seq(|target|, _ => None), Pairs(left), lm);
      && ml.failure.None?
      && Merge(target, ml.slots, Pairs(right), rm).failure.None?
      && BuildValues(target, Merge(target, ml.slots, Pairs(right), rm).slots) == Ok(left.values + right.values)
  {
    var empty: seq<Option<Value>> := seq(|target|, _ => None);
    MergeCopiesAll(target, empty, left, lm, 0);
    var ml := Merge(target, empty, Pairs(left), lm);
    MergeCopiesAll(target, ml.slots, right, rm, |left.values|);
    var mr := Merge(target, ml.slots, Pairs(right), rm);
    FillsCompose(empty, left.values, right.values);
    BuildFilled(target, left.values + right.values);
  }

  /** Writing the left values at the start and the right values after them fills every slot. */
  lemma FillsCompose(empty: seq<Option<Value>>, lv: seq<Value>, rv: seq<Value>)
    requires |empty| == |lv| + |rv|
    ensures Written(Written(empty, 0, lv), |lv|, rv) == Somes(lv + rv)
  {
  }

  /** Every slot set, to the values in order. */
  function Somes(vs: seq<Value>): (slots: seq<Option<Value>>)
    ensures |slots| == |vs| && forall i :: 0 <= i < |vs| ==> slots[i] == Some(vs[i])
  {
    seq(|vs|, i requires 0 <= i < |vs| => Some(vs[i]))
  }

  /** MergeCopies for the whole record. */
  lemma MergeCopiesAll(target: seq<Field>, slots: seq<Option<Value>>, r: Record, m: map<string, string>, off: nat)
    requires WellFormed(r) && |slots| == |target| && DistinctNames(target)
    requires off + |r.values| <= |target|
    requires AlignedFrom(target, r, m, off)
    ensures Merge(target, slots, Pairs(r), m).failure.None?
    ensures Merge(target, slots, Pairs(r), m).slots == Written(slots, off, r.values)
  {
    var ps := Pairs(r);
    forall k | 0 <= k < |ps| ensures ps[k].0 in m && FieldIndex(target, m[ps[k].0]) == Some(off + k) && ps[k].1 == r.values[k] {
      FieldIndexOf(target, off + k);
    }
    MergeCopies(target, slots, ps, m, r.values, off, |r.values|);
    assert ps[..|r.values|] == ps;
    assert r.values[..|r.values|] == r.values;
  }

  /** Join from its steps: the schema used, both merges succeeding, and the build. */
  lemma JoinOf(cached: Option<Schema>, left: Record, right: Record, lm: map<string, string>, rm: map<string, string>,
               s: Schema, vs: seq<Value>)
    requires |left.values| == |left.schema.fields| && |right.values| == |right.schema.fields|
    requires CallSchema(cached, left, right, lm, rm) == Ok(s)
    requires Merge(s.fields, seq(|s.fields|, _ => None), Pairs(left), lm).failure.None?
    requires var ml := Merge(s.fields, seq(|s.fields|, _ => None), Pairs(left), lm);
      Merge(s.fields, ml.slots, Pairs(right), rm).failure.None? &&
      BuildValues(s.fields, Merge(s.fields, ml.slots, Pairs(right), rm).slots) == Ok(vs)
    ensures Join(cached, left, right, lm, rm) == Ok(Record(s, vs))
  {
  }

  /** A build where every field was set yields the values set, in field order. */
  lemma BuildFilled(fields: seq<Field>, vs: seq<Value>)
    requires |fields| == |vs|
    ensures BuildValues(fields, Somes(vs)) == Ok(vs)
  {
    var slots := Somes(vs);
    assert forall i :: 0 <= i < |fields| ==> Resolve(fields[i], slots[i]) == Ok(vs[i]);
    assert BuildValues(fields, slots).value == vs;
  }


  /** Hence on the first call each source value is found in the result under its alias. */
  lemma JoinCopiesValues(left: Record, right: Record, lm: map<string, string>, rm: map<string, string>)
    requires WellFormed(left) && WellFormed(right)
    requires MergedSchema(left.schema, right.schema, lm, rm).Ok?
    ensures Join(None, left, right, lm, rm).Ok?
    ensures var out := Join(None, left, right, lm, rm).value;
      && WellFormed(out)
      && (forall i :: 0 <= i < |left.values| ==> Get(out, lm[left.schema.fields[i].name]) == left.values[i])
      && (forall j :: 0 <= j < |right.values| ==> Get(out, rm[right.schema.fields[j].name]) == right.values[j])
  {
    JoinFirstCall(left, right, lm, rm);
    var s := MergedSchema(left.schema, right.schema, lm, rm).value;
    AliasesAt(left, right, lm, rm, s);
    GetCopies(Record(s, left.values + right.values), left, right, lm, rm);
  }

  /** Reading a record laid out as the left values then the right values, under the aliases, gives back each source value. */
  lemma GetCopies(out: Record, left: Record, right: Record, lm: map<string, string>, rm: map<string, string>)
    requires WellFormed(left) && WellFormed(right)
    requires DistinctNames(out.schema.fields) && out.values == left.values + right.values
    requires |out.schema.fields| == |left.values| + |right.values|
    requires AlignedFrom(out.schema.fields, left, lm, 0) && AlignedFrom(out.schema.fields, right, rm, |left.values|)
    ensures WellFormed(out)
    ensures forall i :: 0 <= i < |left.values| ==> Get(out, lm[left.schema.fields[i].name]) == left.values[i]
    ensures forall j :: 0 <= j < |right.values| ==> Get(out, rm[right.schema.fields[j].name]) == right.values[j]
  {
    var nl := |left.values|;
    forall i | 0 <= i < nl ensures Get(out, lm[left.schema.fields[i].name]) == left.values[i] {
      FieldIndexOf(out.schema.fields, i);
    }
    forall j | 0 <= j < |right.values| ensures Get(out, rm[right.schema.fields[j].name]) == right.values[j] {
      FieldIndexOf(out.schema.fields, nl + j);
    }
  }

  /** Once a schema is cached, every later call uses it and leaves it, whatever the input schemas. */
  lemma JoinReusesSchema(cached: Schema, left: Record, right: Record, lm: map<string, string>, rm: map<string, string>)
    requires |left.values| == |left.schema.fields| && |right.values| == |right.schema.fields|
    ensures CacheAfter(Some(cached), left, right, lm, rm) == Some(cached)
    ensures Join(Some(cached), left, right, lm, rm).Ok? ==> Join(Some(cached), left, right, lm, rm).value.schema == cached
  {
  }

  /** A later call with inputs of the schemas of the first call joins exactly as the first call did. */
  lemma JoinCachedAgrees(left: Record, right: Record, lm: map<string, string>, rm: map<string, string>)
    requires |left.values| == |left.schema.fields| && |right.values| == |right.schema.fields|
    requires MergedSchema(left.schema, right.schema, lm, rm).Ok?
    ensures Join(Some(MergedSchema(left.schema, right.schema, lm, rm).value), left, right, lm, rm) == Join(None, left, right, lm, rm)
  {
  }

  /**
   * A field whose alias is missing or not an Avro name fails the first call
   * with the error of the first such field: the left record's fields are
   * renamed first, then the right record's.
   */
  lemma JoinBadAlias(left: Record, right: Record, lm: map<string, string>, rm: map<string, string>) returns (onLeft: bool, i: nat)
    requires |left.values| == |left.schema.fields| && |right.values| == |right.schema.fields|
    requires !AllRenamable(left.schema.fields, lm) || !AllRenamable(right.schema.fields, rm)
    ensures onLeft <==> !AllRenamable(left.schema.fields, lm)
    ensures onLeft ==>
      && i < |left.schema.fields| && !Renamable(left.schema.fields[i], lm)
      && (forall j :: 0 <= j < i ==> Renamable(left.schema.fields[j], lm))
      && Join(None, left, right, lm, rm) == Err(RenameError(left.schema.fields[i], lm))
    ensures !onLeft ==>
      && i < |right.schema.fields| && !Renamable(right.schema.fields[i], rm)
      && (forall j :: 0 <= j < i ==> Renamable(right.schema.fields[j], rm))
      && Join(None, left, right, lm, rm) == Err(RenameError(right.schema.fields[i], rm))
  {
    onLeft := !AllRenamable(left.schema.fields, lm);
    if onLeft {
      i := MappedFieldsFirstBad(left.schema.fields, lm);
    } else {
      i := MappedFieldsFirstBad(right.schema.fields, rm);
    }
  }
}
