/**
 * `AvroKeyValueMapper`: the grouping key of a joined record, the decimal
 * text of its timestamp, an underscore, and the text of one configured
 * field's value.
 */
module KeyValueMapper {

  import opened Wrappers
  import opened JavaText
  import opened Avro
  import opened TimestampExtractor

  /** The mapper keeps a timestamp extractor and the name of the field to group by. */
  datatype AvroKeyValueMapper = AvroKeyValueMapper(timestampExtractor: AvroTimestampExtractor, fieldName: string)

  /** `create(timestampExtractor, fieldName)`. */
  function Create(timestampExtractor: AvroTimestampExtractor, fieldName: string): (m: AvroKeyValueMapper)
    ensures m.timestampExtractor == timestampExtractor && m.fieldName == fieldName
  {
    AvroKeyValueMapper(timestampExtractor, fieldName)
  }

  /**
   * `apply(key, value)`: `String.valueOf(ts) + "_" + String.valueOf(field)`.
   * The incoming key plays no part; a missing or null field reads "null".
   * Since a timestamp's text has no underscore, the key splits back at its
   * first underscore into the timestamp text and the field text.
   */
  function GroupKey(m: AvroKeyValueMapper, key: string, value: Record): (k: string)
    requires Stamped(m.timestampExtractor, value)
    ensures SplitKey(k) == Some((LongText(Extract(m.timestampExtractor, value) as int), ValueText(Get(value, m.fieldName))))
  {
    var ts := LongText(Extract(m.timestampExtractor, value) as int);
    var field := ValueText(Get(value, m.fieldName));
    NoUnderscoreInLong(Extract(m.timestampExtractor, value) as int);
    SplitJoined(ts, field);
    ts + "_" + field
  }

  /** The position of the first `c` in `s`, if any. */
  function FirstIndex(s: string, c: char): (r: Option<nat>)
    ensures r.Some? ==> r.value < |s| && s[r.value] == c && forall j :: 0 <= j < r.value ==> s[j] != c
    ensures r.None? ==> forall j :: 0 <= j < |s| ==> s[j] != c
  {
    if s == [] then None
    else if s[0] == c then Some(0)
    else
      match FirstIndex(s[1..], c)
      case None => None
      case Some(i) => Some(i + 1)
  }

  /** A group key read back: the text before the first underscore and the text after it. */
  function SplitKey(k: string): (r: Option<(string, string)>)
    ensures r.Some? ==> k == r.value.0 + "_" + r.value.1 && '_' !in r.value.0
  {
    match FirstIndex(k, '_')
    case None => None
    case Some(i) =>
      assert k == k[..i] + "_" + k[i + 1..];
      Some((k[..i], k[i + 1..]))
  }

  /** Splitting at the first underscore undoes a join whose left part has none. */
  lemma SplitJoined(a: string, b: string)
    requires '_' !in a
    ensures SplitKey(a + "_" + b) == Some((a, b))
  {
    var k := a + "_" + b;
    assert k[|a|] == '_';
    assert forall j :: 0 <= j < |a| ==> k[j] == a[j];
    assert FirstIndex(k, '_') == Some(|a|);
    assert k[..|a|] == a && k[|a| + 1..] == b;
  }

  /** The decimal text of a long holds no underscore. */
  lemma NoUnderscoreInLong(n: int)
    ensures '_' !in LongText(n)
  {
  }

  /**
   * Two records get the same key exactly when they have the same timestamp
   * and the same field text, whatever the incoming keys.
   */
  lemma GroupKeyInjective(m: AvroKeyValueMapper, k1: string, v1: Record, k2: string, v2: Record)
    requires Stamped(m.timestampExtractor, v1) && Stamped(m.timestampExtractor, v2)
    ensures GroupKey(m, k1, v1) == GroupKey(m, k2, v2) <==>
      Extract(m.timestampExtractor, v1) == Extract(m.timestampExtractor, v2) &&
      ValueText(Get(v1, m.fieldName)) == ValueText(Get(v2, m.fieldName))
  {
    if GroupKey(m, k1, v1) == GroupKey(m, k2, v2) {
      LongTextInjective(Extract(m.timestampExtractor, v1) as int, Extract(m.timestampExtractor, v2) as int);
    }
  }

  /** A record without the grouping field, or with null in it, is grouped under `<ts>_null`. */
  lemma GroupKeyNull(m: AvroKeyValueMapper, key: string, value: Record)
    requires Stamped(m.timestampExtractor, value) && Get(value, m.fieldName) == Null
    ensures GroupKey(m, key, value) == LongText(Extract(m.timestampExtractor, value) as int) + "_null"
  {
  }
}
