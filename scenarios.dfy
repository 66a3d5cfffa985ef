/**
 * The sample data of the repository run through the model: the record
 * schema of the unit test, the alias tables of the topology, and records
 * of that schema aggregated by their `event_time` field.
 */
module Scenarios {

  import opened Wrappers
  import opened JavaText
  import opened Avro
  import opened FieldsValueJoiner
  import opened TimestampExtractor
  import opened KeyValueMapper
  import LastAggregator

  /** The `xrecord` schema of the unit test: a millisecond timestamp, two string keys and an int value. */
  const SampleSchema: Schema := Schema("xrecord", "", "", false, [
    Field("event_time", "long/timestamp-millis", "", None, []),
    Field("key1", "string", "", None, []),
    Field("key2", "string", "", None, []),
    Field("val", "int", "", None, [])])

  /** The left alias table of the topology. */
  const LeftMappings: map<string, string> :=
    map["event_time" := "event_time_1", "key1" := "key1_1", "key2" := "key2_1", "val" := "val_1"]

  /** The right alias table of the topology. */
  const RightMappings: map<string, string> :=
    map["event_time" := "event_time_2", "key1" := "key1_2", "key2" := "key2_2", "val" := "val_2"]

  /** A sample record with the given timestamp, keys and value. */
  function Sample(ts: int64, key1: string, key2: string, v: int32): (r: Record)
    ensures WellFormed(r)
    ensures r.values == [LongValue(ts), StringValue(key1), StringValue(key2), IntValue(v)]
  {
    Record(SampleSchema, [LongValue(ts), StringValue(key1), StringValue(key2), IntValue(v)])
  }

  /** The aliases of both tables, in schema order. */
  const MergedNames: seq<string> :=
    ["event_time_1", "key1_1", "key2_1", "val_1", "event_time_2", "key1_2", "key2_2", "val_2"]

  /** The eight aliases are pairwise different: the last letter tells the sides apart, the length or fourth letter the fields. */
  lemma MergedNamesDistinct(names: seq<string>)
    requires names == MergedNames
    ensures forall i, j :: 0 <= i < j < |names| ==> names[i] != names[j]
  {
    forall i, j | 0 <= i < j < |names| ensures names[i] != names[j] {
      var a := names[i];
      var b := names[j];
      if |a| == |b| {
        if a[|a| - 1] == b[|b| - 1] {
          assert a[3] != b[3];
        }
      }
    }
  }

  /** The extractor the topology builds for its input streams, over the `event_time` field. */
  const EventTime: AvroTimestampExtractor := TimestampExtractor.Create("event_time")

  /** Every sample record carries its timestamp in `event_time`. */
  lemma SampleStamped(ts: int64, key1: string, key2: string, v: int32)
    ensures Stamped(EventTime, Sample(ts, key1, key2, v))
    ensures Extract(EventTime, Sample(ts, key1, key2, v)) == ts
  {
    var r := Sample(ts, key1, key2, v);
    assert r.schema.fields[0].name == "event_time";
    assert FieldIndex(r.schema.fields, "event_time") == Some(0);
  }

  /** Three samples arriving at 100, 101 and 99 leave the one stamped 101 as the group's aggregate. */
  lemma SampleLatestWins(key: string, a: LastAggregator.AvroLastAggregator)
    requires a == LastAggregator.Create(EventTime)
    ensures LastAggregator.AllStamped(EventTime, [Sample(100, "a", "b", 1), Sample(101, "a", "b", 2), Sample(99, "a", "b", 3)])
    ensures LastAggregator.Fold(a, key, [Sample(100, "a", "b", 1), Sample(101, "a", "b", 2), Sample(99, "a", "b", 3)])
      == Some(Sample(101, "a", "b", 2))
  {
    var r0, r1, r2 := Sample(100, "a", "b", 1), Sample(101, "a", "b", 2), Sample(99, "a", "b", 3);
    SampleStamped(100, "a", "b", 1);
    SampleStamped(101, "a", "b", 2);
    SampleStamped(99, "a", "b", 3);
    var vals := [r0, r1, r2];
    assert vals[..2] == [r0, r1] && [r0, r1][..1] == [r0] && [r0][..0] == [];
    assert LastAggregator.Fold(a, key, [r0]) == Some(r0);
    assert LastAggregator.Fold(a, key, [r0, r1]) == Some(r1);
  }

  /** Every alias of both tables is an Avro name: letters and digits joined by underscores. */
  lemma MergedNamesLegal(names: seq<string>)
    requires names == MergedNames
    ensures forall i :: 0 <= i < |names| ==> IsAvroName(names[i])
  {
    forall i | 0 <= i < |names| ensures IsAvroName(names[i]) {
      AliasLegal(names[i]);
    }
  }

  /** An alias of the tables: a letter, then letters, digits and underscores. */
  lemma AliasLegal(a: string)
    requires a in MergedNames
    ensures IsAvroName(a)
  {
    forall j | 1 <= j < |a| ensures IsNameChar(a[j]) {
      assert a[j] in "abcdeiklmntvy_12";
    }
  }

  /** The left table sends the four sample fields to the first four aliases, the right table to the last four. */
  lemma SampleAliases(i: nat)
    requires i < 4
    ensures SampleSchema.fields[i].name in LeftMappings && LeftMappings[SampleSchema.fields[i].name] == MergedNames[i]
    ensures SampleSchema.fields[i].name in RightMappings && RightMappings[SampleSchema.fields[i].name] == MergedNames[i + 4]
  {
  }

  /** Every sample field has a legal alias in both tables. */
  lemma SampleRenamable()
    ensures AllRenamable(SampleSchema.fields, LeftMappings) && AllRenamable(SampleSchema.fields, RightMappings)
  {
    MergedNamesLegal(MergedNames);
    forall i | 0 <= i < 4
      ensures Renamable(SampleSchema.fields[i], LeftMappings) && Renamable(SampleSchema.fields[i], RightMappings)
    {
      SampleAliases(i);
    }
  }

  /** The schema the joiner builds for two `xrecord`s: the four left aliases, then the four right ones. */
  lemma SampleMerge()
    ensures MergedSchema(SampleSchema, SampleSchema, LeftMappings, RightMappings).Ok?
    ensures var fs := MergedSchema(SampleSchema, SampleSchema, LeftMappings, RightMappings).value.fields;
      |fs| == |MergedNames| && forall i :: 0 <= i < |fs| ==> fs[i].name == MergedNames[i]
  {
    SampleRenamable();
    var mf := MergedFields(SampleSchema, SampleSchema, LeftMappings, RightMappings);
    forall i | 0 <= i < 8 ensures mf[i].name == MergedNames[i] {
      if i < 4 { SampleAliases(i); } else { SampleAliases(i - 4); }
    }
    MergedNamesDistinct(MergedNames);
    MergedSchemaShape(SampleSchema, SampleSchema, LeftMappings, RightMappings);
  }

  /** The extractor the topology's grouping uses: the left `event_time` under its alias. */
  const LeftMappedTime: AvroTimestampExtractor := TimestampExtractor.Create("event_time_1")

  /** The topology's grouping: the left timestamp and the left `key1`, read from the joined record. */
  const GroupKeyMapper: AvroKeyValueMapper := KeyValueMapper.Create(LeftMappedTime, "key1_1")

  /** Joining two records of the sample schema under the topology's tables: the merged schema, holding the left values, then the right values. */
  lemma JoinSampleSchema(l: Record, r: Record, lm: map<string, string>, rm: map<string, string>)
    requires lm == LeftMappings && rm == RightMappings
    requires l.schema == SampleSchema && r.schema == SampleSchema && WellFormed(l) && WellFormed(r)
    ensures MergedSchema(SampleSchema, SampleSchema, lm, rm).Ok?
    ensures Join(None, l, r, lm, rm) == Ok(Record(MergedSchema(SampleSchema, SampleSchema, lm, rm).value, l.values + r.values))
  {
    SampleMerge();
    JoinFirstCall(l, r, lm, rm);
  }

  /** Joining two sample records: the eight aliases as field names, the eight values in order, left first. */
  lemma SampleJoin(lm: map<string, string>, rm: map<string, string>,
                   t1: int64, a1: string, b1: string, v1: int32, t2: int64, a2: string, b2: string, v2: int32)
    requires lm == LeftMappings && rm == RightMappings
    ensures var out := Join(None, Sample(t1, a1, b1, v1), Sample(t2, a2, b2, v2), lm, rm);
      && out.Ok?
      && |out.value.schema.fields| == |MergedNames|
      && (forall i :: 0 <= i < |MergedNames| ==> out.value.schema.fields[i].name == MergedNames[i])
      && out.value.values == [LongValue(t1), StringValue(a1), StringValue(b1), IntValue(v1),
                              LongValue(t2), StringValue(a2), StringValue(b2), IntValue(v2)]
  {
    SampleMerge();
    JoinSampleSchema(Sample(t1, a1, b1, v1), Sample(t2, a2, b2, v2), lm, rm);
  }

  /** The topology's mapper groups a joined sample under the left timestamp and the left `key1`. */
  lemma SampleGroup(key: string, s: Schema, t1: int64, a1: string, b1: string, v1: int32, t2: int64, a2: string, b2: string, v2: int32)
    requires |s.fields| == |MergedNames| && forall i :: 0 <= i < |MergedNames| ==> s.fields[i].name == MergedNames[i]
    ensures var out := Record(s, [LongValue(t1), StringValue(a1), StringValue(b1), IntValue(v1),
                                  LongValue(t2), StringValue(a2), StringValue(b2), IntValue(v2)]);
      && Stamped(GroupKeyMapper.timestampExtractor, out)
      && GroupKey(GroupKeyMapper, key, out) == LongText(t1 as int) + "_" + a1
  {
    var fs := s.fields;
    assert fs[0].name == "event_time_1" && fs[1].name == "key1_1";
    MergedNamesDistinct(MergedNames);
    assert DistinctNames(fs);
    FieldIndexOf(fs, 0);
    FieldIndexOf(fs, 1);
    SplitJoined(LongText(t1 as int), a1);
  }
}
