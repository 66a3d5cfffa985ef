/**
 * `AvroLastReducer`: of two records, keep the one with the larger
 * timestamp, the first argument on a tie; a null on either side yields
 * the other argument.
 */
module LastReducer {

  import opened Wrappers
  import opened JavaText
  import opened Avro
  import opened TimestampExtractor
  import LastAggregator

  /** The reducer keeps only its timestamp extractor. */
  datatype AvroLastReducer = AvroLastReducer(tsExtractor: AvroTimestampExtractor)

  /** `create(tsExtractor)`. */
  function Create(tsExtractor: AvroTimestampExtractor): (r: AvroLastReducer)
    ensures r.tsExtractor == tsExtractor
  {
    AvroLastReducer(tsExtractor)
  }

  /** What `apply(val, agg)` needs so as not to throw: timestamps on both records when both are present. */
  predicate CanReduce(red: AvroLastReducer, val: Option<Record>, agg: Option<Record>) {
    val.Some? && agg.Some? ==> Stamped(red.tsExtractor, val.value) && Stamped(red.tsExtractor, agg.value)
  }

  /** `apply(val, agg)`: null-tolerant choice of the more recent record, `val` on a tie. */
  function Reduce(red: AvroLastReducer, val: Option<Record>, agg: Option<Record>): (r: Option<Record>)
    requires CanReduce(red, val, agg)
    ensures val.None? ==> r == agg
    ensures val.Some? && agg.None? ==> r == val
    ensures r == val || r == agg
    ensures val.Some? && agg.Some? ==>
      var tv := Extract(red.tsExtractor, val.value);
      var tg := Extract(red.tsExtractor, agg.value);
      && Extract(red.tsExtractor, r.value) >= tv
      && Extract(red.tsExtractor, r.value) >= tg
      && (tv >= tg ==> r == val)
      && (tv < tg ==> r == agg)
  {
    if val.None? then agg
    else if agg.None? then val
    else if Extract(red.tsExtractor, val.value) >= Extract(red.tsExtractor, agg.value) then val
    else agg
  }

  /** The result is absent only when both arguments are. */
  lemma ReduceAbsent(red: AvroLastReducer, val: Option<Record>, agg: Option<Record>)
    requires CanReduce(red, val, agg)
    ensures Reduce(red, val, agg).None? <==> val.None? && agg.None?
  {
  }

  /** With two present records of different timestamps, the order of the arguments does not matter. */
  lemma ReduceCommutes(red: AvroLastReducer, x: Record, y: Record)
    requires Stamped(red.tsExtractor, x) && Stamped(red.tsExtractor, y)
    requires Extract(red.tsExtractor, x) != Extract(red.tsExtractor, y)
    ensures Reduce(red, Some(x), Some(y)) == Reduce(red, Some(y), Some(x))
  {
  }

  /** On a tie the first argument wins, so the order matters there unless the records are equal. */
  lemma ReduceTieKeepsFirst(red: AvroLastReducer, x: Record, y: Record)
    requires Stamped(red.tsExtractor, x) && Stamped(red.tsExtractor, y)
    requires Extract(red.tsExtractor, x) == Extract(red.tsExtractor, y)
    ensures Reduce(red, Some(x), Some(y)) == Some(x) && Reduce(red, Some(y), Some(x)) == Some(y)
  {
  }

  /** Reducing is associative on present records: either grouping picks the same record. */
  lemma ReduceAssociative(red: AvroLastReducer, x: Record, y: Record, z: Record)
    requires Stamped(red.tsExtractor, x) && Stamped(red.tsExtractor, y) && Stamped(red.tsExtractor, z)
    ensures CanReduce(red, Some(x), Reduce(red, Some(y), Some(z)))
    ensures CanReduce(red, Reduce(red, Some(x), Some(y)), Some(z))
    ensures Reduce(red, Some(x), Reduce(red, Some(y), Some(z))) == Reduce(red, Reduce(red, Some(x), Some(y)), Some(z))
  {
  }

  /**
   * Wherever the aggregator with the same extractor does not throw, the
   * reducer returns what it returns; the reducer also accepts a null record
   * against a present aggregate, where the aggregator throws.
   */
  lemma ReduceAgreesWithAggregate(red: AvroLastReducer, key: string, val: Option<Record>, agg: Option<Record>)
    requires LastAggregator.CanAggregate(LastAggregator.Create(red.tsExtractor), val, agg)
    ensures CanReduce(red, val, agg)
    ensures Reduce(red, val, agg) == LastAggregator.Aggregate(LastAggregator.Create(red.tsExtractor), key, val, agg)
  {
  }
}
