/**
 * The KSQL user-defined aggregate `latest`: one generic collector whose
 * aggregate is the value that arrived last, offered for five column types.
 * A Java null is `None`.
 */
module LatestUdaf {

  import opened Wrappers
  import opened JavaText

  /** `Udaf<T, T>`: the initial aggregate, the step for one value, and the merge of two aggregates. */
  datatype Udaf<!T> = Udaf(
    initialize: () -> Option<T>,
    aggregate: (Option<T>, Option<T>) -> Option<T>,
    merge: (Option<T>, Option<T>) -> Option<T>)

  /** A Java `double`, kept as its IEEE 754 bits: the collector never looks inside a value. */
  type Float64 = bv64

  /**
   * `latestCollector()`: starts from null, replaces the aggregate by each
   * arriving value (null included), and keeps the first of two merged
   * aggregates.
   */
  function LatestCollector<T>(): (u: Udaf<T>)
    ensures u.initialize() == None
  {
    Udaf(() => None, (thisValue, aggregate) => thisValue, (aggOne, aggTwo) => aggOne)
  }

  /** `aggregate(thisValue, aggregate)` is `thisValue`, and `merge(aggOne, aggTwo)` is `aggOne`, null or not. */
  lemma CollectorSteps<T>(thisValue: Option<T>, aggregate: Option<T>, aggOne: Option<T>, aggTwo: Option<T>)
    ensures LatestCollector<T>().aggregate(thisValue, aggregate) == thisValue
    ensures LatestCollector<T>().merge(aggOne, aggTwo) == aggOne
  {
  }

  /** `createLatestLong()`, for BIGINT columns. */
  function CreateLatestLong(): (u: Udaf<int64>)
    ensures u == LatestCollector<int64>()
  {
    LatestCollector()
  }

  /** `createLatestInt()`, for INTEGER columns. */
  function CreateLatestInt(): (u: Udaf<int32>)
    ensures u == LatestCollector<int32>()
  {
    LatestCollector()
  }

  /** `createLatestDouble()`, for DOUBLE columns. */
  function CreateLatestDouble(): (u: Udaf<Float64>)
    ensures u == LatestCollector<Float64>()
  {
    LatestCollector()
  }

  /** `createLatestString()`, for STRING columns. */
  function CreateLatestString(): (u: Udaf<string>)
    ensures u == LatestCollector<string>()
  {
    LatestCollector()
  }

  /** `createLatestBool()`, for BOOLEAN columns. */
  function CreateLatestBool(): (u: Udaf<bool>)
    ensures u == LatestCollector<bool>()
  {
    LatestCollector()
  }

  /** The aggregate after the values `xs` arrived in order: `initialize()`, then one `aggregate` per value. */
  function Fold<T>(u: Udaf<T>, xs: seq<Option<T>>): Option<T> {
    if xs == [] then u.initialize()
    else u.aggregate(xs[|xs| - 1], Fold(u, xs[..|xs| - 1]))
  }

  /** The latest collector's aggregate is the last value that arrived, or null before any. */
  lemma FoldLast<T>(xs: seq<Option<T>>)
    ensures Fold(LatestCollector(), xs) == if xs == [] then None else xs[|xs| - 1]
  {
  }

  /** Hence the aggregate of a run forgets every value before the last one. */
  lemma FoldForgets<T>(xs: seq<Option<T>>, ys: seq<Option<T>>)
    requires ys != []
    ensures Fold(LatestCollector(), xs + ys) == Fold(LatestCollector(), ys)
  {
    FoldLast(xs + ys);
    FoldLast(ys);
  }

  /** Merging the aggregates of two runs keeps the first run's aggregate, whatever the second holds. */
  lemma MergeKeepsFirst<T>(xs: seq<Option<T>>, ys: seq<Option<T>>)
    ensures var u := LatestCollector<T>();
      u.merge(Fold(u, xs), Fold(u, ys)) == Fold(u, xs)
  {
  }

  /** All five factories behave alike: each aggregate is the last value, and each merge the first aggregate. */
  lemma FactoriesAgree(l: seq<Option<int64>>, i: seq<Option<int32>>, d: seq<Option<Float64>>, s: seq<Option<string>>, b: seq<Option<bool>>)
    ensures Fold(CreateLatestLong(), l) == if l == [] then None else l[|l| - 1]
    ensures Fold(CreateLatestInt(), i) == if i == [] then None else i[|i| - 1]
    ensures Fold(CreateLatestDouble(), d) == if d == [] then None else d[|d| - 1]
    ensures Fold(CreateLatestString(), s) == if s == [] then None else s[|s| - 1]
    ensures Fold(CreateLatestBool(), b) == if b == [] then None else b[|b| - 1]
  {
    FoldLast(l);
    FoldLast(i);
    FoldLast(d);
    FoldLast(s);
    FoldLast(b);
  }
}
