/**
 * `AvroLastAggregator`: the initializer and aggregator of the grouped
 * table. The aggregate of a group is the latest record seen, by the
 * extractor's timestamp; a record arriving with the same timestamp as the
 * aggregate replaces it. A Java null record is `None`.
 */
module LastAggregator {

  import opened Wrappers
  import opened JavaText
  import opened Avro
  import opened TimestampExtractor

  /** The aggregator keeps only its timestamp extractor. */
  datatype AvroLastAggregator = AvroLastAggregator(tsExtractor: AvroTimestampExtractor)

  /** `create(tsExtractor)`. */
  function Create(tsExtractor: AvroTimestampExtractor): (a: AvroLastAggregator)
    ensures a.tsExtractor == tsExtractor
  {
    AvroLastAggregator(tsExtractor)
  }

  /** `apply()`, the initializer: a group starts with no aggregate. */
  function Initialize(a: AvroLastAggregator): (r: Option<Record>)
    ensures r.None?
  {
    None
  }

  /**
   * What `apply(key, val, agg)` needs so as not to throw: with an aggregate
   * present, both records must carry a `long` timestamp (a null `val` then
   * throws as well).
   */
  predicate CanAggregate(a: AvroLastAggregator, val: Option<Record>, agg: Option<Record>) {
    agg.Some? ==> val.Some? && Stamped(a.tsExtractor, val.value) && Stamped(a.tsExtractor, agg.value)
  }

  /**
   * `apply(key, val, agg)`: the arriving record when there is no aggregate
   * yet, or when it is at least as recent as the aggregate; the aggregate
   * otherwise. The result is always one of the two and carries the larger
   * timestamp, and a tie goes to the arriving record.
   */
  function Aggregate(a: AvroLastAggregator, key: string, val: Option<Record>, agg: Option<Record>): (r: Option<Record>)
    requires CanAggregate(a, val, agg)
    ensures agg.None? ==> r == val
    ensures agg.Some? ==> r.Some? && (r == val || r == agg)
    ensures agg.Some? ==>
      var tv := Extract(a.tsExtractor, val.value);
      var tg := Extract(a.tsExtractor, agg.value);
      && Extract(a.tsExtractor, r.value) >= tv
      && Extract(a.tsExtractor, r.value) >= tg
      && (tv >= tg ==> r == val)
      && (tv < tg ==> r == agg)
  {
    if agg.None? then val
    else if Extract(a.tsExtractor, val.value) >= Extract(a.tsExtractor, agg.value) then val
    else agg
  }

  /** The key plays no part in the choice. */
  lemma AggregateIgnoresKey(a: AvroLastAggregator, k1: string, k2: string, val: Option<Record>, agg: Option<Record>)
    requires CanAggregate(a, val, agg)
    ensures Aggregate(a, k1, val, agg) == Aggregate(a, k2, val, agg)
  {
  }

  /** Aggregating the same record twice changes nothing the second time. */
  lemma AggregateIdempotent(a: AvroLastAggregator, key: string, v: Record, agg: Option<Record>)
    requires Stamped(a.tsExtractor, v) && CanAggregate(a, Some(v), agg)
    ensures CanAggregate(a, Some(v), Aggregate(a, key, Some(v), agg))
    ensures Aggregate(a, key, Some(v), Aggregate(a, key, Some(v), agg)) == Aggregate(a, key, Some(v), agg)
  {
  }

  /** Every record of the sequence carries a timestamp. */
  predicate AllStamped(e: AvroTimestampExtractor, vals: seq<Record>) {
    forall i :: 0 <= i < |vals| ==> Stamped(e, vals[i])
  }

  /**
   * The aggregate of a group after the records `vals` arrived in order:
   * the initializer, then one aggregator call per record.
   */
  function Fold(a: AvroLastAggregator, key: string, vals: seq<Record>): (r: Option<Record>)
    requires AllStamped(a.tsExtractor, vals)
    ensures r.None? <==> vals == []
    ensures r.Some? ==> Stamped(a.tsExtractor, r.value)
  {
    if vals == [] then Initialize(a)
    else
      var n := |vals| - 1;
      Aggregate(a, key, Some(vals[n]), Fold(a, key, vals[..n]))
  }

  /** The timestamps of the records, in arrival order. */
  function Stamps(e: AvroTimestampExtractor, vals: seq<Record>): (ts: seq<int64>)
    requires AllStamped(e, vals)
    ensures |ts| == |vals| && forall i :: 0 <= i < |vals| ==> ts[i] == Extract(e, vals[i])
  {
    seq(|vals|, i requires 0 <= i < |vals| => Extract(e, vals[i]))
  }

  /** Position `i` holds the largest timestamp, and every later position a smaller one. */
  predicate LatestAt(ts: seq<int64>, i: nat) {
    && i < |ts|
    && (forall j :: 0 <= j < |ts| ==> ts[j] <= ts[i])
    && (forall j :: i < j < |ts| ==> ts[j] < ts[i])
  }

  /** Appending a timestamp: it is the latest if at least as large as the latest before it, else that one stays. */
  lemma LatestStep(ts: seq<int64>, k: nat)
    requires |ts| > 1 && LatestAt(ts[..|ts| - 1], k)
    ensures LatestAt(ts, if ts[|ts| - 1] >= ts[k] then |ts| - 1 else k)
  {
    var n := |ts| - 1;
    assert forall j :: 0 <= j < n ==> ts[..n][j] == ts[j];
  }

  /** The timestamps of a prefix are the prefix of the timestamps. */
  lemma StampsPrefix(e: AvroTimestampExtractor, vals: seq<Record>)
    requires AllStamped(e, vals) && vals != []
    ensures AllStamped(e, vals[..|vals| - 1])
    ensures Stamps(e, vals)[..|vals| - 1] == Stamps(e, vals[..|vals| - 1])
  {
  }

  /** One aggregator call after a prefix whose aggregate is `vals[k]`. */
  lemma FoldStep(a: AvroLastAggregator, key: string, vals: seq<Record>, k: nat) returns (i: nat)
    requires AllStamped(a.tsExtractor, vals) && k < |vals| - 1
    requires AllStamped(a.tsExtractor, vals[..|vals| - 1]) && Fold(a, key, vals[..|vals| - 1]) == Some(vals[k])
    ensures i == if Stamps(a.tsExtractor, vals)[|vals| - 1] >= Stamps(a.tsExtractor, vals)[k] then |vals| - 1 else k
    ensures Fold(a, key, vals) == Some(vals[i])
  {
    var n := |vals| - 1;
    i := if Extract(a.tsExtractor, vals[n]) >= Extract(a.tsExtractor, vals[k]) then n else k;
  }

  /**
   * The aggregate of a non-empty group is a record of maximal timestamp,
   * and of those the one that arrived last.
   */
  lemma {:induction false} FoldLatest(a: AvroLastAggregator, key: string, vals: seq<Record>) returns (i: nat)
    requires AllStamped(a.tsExtractor, vals) && vals != []
    ensures i < |vals| && Fold(a, key, vals) == Some(vals[i])
    ensures LatestAt(Stamps(a.tsExtractor, vals), i)
  {
    var e := a.tsExtractor;
    var n := |vals| - 1;
    var prefix := vals[..n];
    assert AllStamped(e, prefix);
    if n == 0 {
      i := 0;
    } else {
      var k := FoldLatest(a, key, prefix);
      StampsPrefix(e, vals);
      LatestStep(Stamps(e, vals), k);
      i := FoldStep(a, key, vals, k);
    }
  }

  /** A record that arrives later than every other one and is at least as recent as all of them is the aggregate. */
  lemma FoldNewest(a: AvroLastAggregator, key: string, vals: seq<Record>, v: Record)
    requires AllStamped(a.tsExtractor, vals) && Stamped(a.tsExtractor, v)
    requires forall j :: 0 <= j < |vals| ==> Extract(a.tsExtractor, vals[j]) <= Extract(a.tsExtractor, v)
    ensures AllStamped(a.tsExtractor, vals + [v])
    ensures Fold(a, key, vals + [v]) == Some(v)
  {
    var all := vals + [v];
    assert all[..|vals|] == vals;
    if vals != [] {
      var k := FoldLatest(a, key, vals);
    }
  }
}
