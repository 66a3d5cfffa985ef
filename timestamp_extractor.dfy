/**
 * `AvroTimestampExtractor`: the event time of a record is the value of one
 * configured field, read as a Java `long`.
 */
module TimestampExtractor {

  import opened Wrappers
  import opened JavaText
  import opened Avro

  /** The extractor keeps only the name of the timestamp field, fixed when it is created. */
  datatype AvroTimestampExtractor = AvroTimestampExtractor(fieldName: string)

  /** `create(fieldName)`. */
  function Create(fieldName: string): (e: AvroTimestampExtractor)
    ensures e.fieldName == fieldName
  {
    AvroTimestampExtractor(fieldName)
  }

  /**
   * The cast `(long) r.get(fieldName)` succeeds: the record has the field
   * and its value is a boxed `Long`. A missing field reads as null and a
   * null or any other boxed type makes the cast throw.
   */
  predicate Stamped(e: AvroTimestampExtractor, r: Record) {
    |r.values| == |r.schema.fields| && Get(r, e.fieldName).LongValue?
  }

  /** The timestamp of a record: the `long` held by a field of the configured name. */
  function Extract(e: AvroTimestampExtractor, r: Record): (t: int64)
    requires Stamped(e, r)
    ensures exists i :: 0 <= i < |r.values| && r.schema.fields[i].name == e.fieldName && r.values[i] == LongValue(t)
  {
    Get(r, e.fieldName).l
  }

  /** In a well-formed record, every field of the configured name holds the timestamp. */
  lemma ExtractField(e: AvroTimestampExtractor, r: Record)
    requires Stamped(e, r)
    ensures WellFormed(r) ==>
      forall i :: 0 <= i < |r.values| && r.schema.fields[i].name == e.fieldName ==> r.values[i] == LongValue(Extract(e, r))
  {
    if WellFormed(r) {
      forall j | 0 <= j < |r.values| && r.schema.fields[j].name == e.fieldName ensures r.values[j] == LongValue(Extract(e, r)) {
        FieldIndexOf(r.schema.fields, j);
      }
    }
  }

  /** A Kafka consumer record: key, value (None for a tombstone) and the timestamp the broker stored. */
  datatype ConsumerRecord = ConsumerRecord(key: string, value: Option<Record>, timestamp: int64)

  /**
   * `extract(record, previousTimestamp)`: the timestamp of the record's
   * value; the previous timestamp and the broker timestamp play no part.
   * A tombstone (null value) makes `r.get` throw, so the value must be there.
   */
  function ExtractRecord(e: AvroTimestampExtractor, record: ConsumerRecord, previousTimestamp: int64): (ts: int64)
    requires record.value.Some? && Stamped(e, record.value.value)
    ensures ts == Extract(e, record.value.value)
  {
    Extract(e, record.value.value)
  }

  /** Records whose configured fields hold the same `long` have the same timestamp, whatever else they hold. */
  lemma ExtractAgrees(e: AvroTimestampExtractor, r1: Record, r2: Record)
    requires Stamped(e, r1) && Stamped(e, r2)
    requires Get(r1, e.fieldName) == Get(r2, e.fieldName)
    ensures Extract(e, r1) == Extract(e, r2)
  {
  }

  /** The timestamp of a consumer record depends neither on the previous timestamp nor on the broker's. */
  lemma ExtractRecordIgnoresPrevious(e: AvroTimestampExtractor, record: ConsumerRecord, other: int64, p1: int64, p2: int64)
    requires record.value.Some? && Stamped(e, record.value.value)
    ensures ExtractRecord(e, record, p1) == ExtractRecord(e, record.(timestamp := other), p2)
  {
  }
}
