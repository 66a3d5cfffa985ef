/**
 * `JoinerProperties`: the joiner's property bag. Every `put` stores the raw
 * text; six keys are also parsed on the spot, two into field maps and four
 * into durations. Loading from a property set or from the environment is a
 * sequence of puts.
 */
module Configuration {

  import opened Wrappers
  import opened JavaText
  import opened IsoDuration
  import opened FieldSpec

  const LEFT_TOPIC: string := "left.topic"
  const RIGHT_TOPIC: string := "right.topic"
  const OUT_TOPIC: string := "out.topic"
  const LEFT_FIELDS: string := "left.fields"
  const RIGHT_FIELDS: string := "right.fields"
  const LEFT_WHERE_FIELD: string := "left.where.field"
  const RIGHT_WHERE_FIELD: string := "right.where.field"
  const LEFT_TIMESTAMP_FIELD: string := "left.timestamp.field"
  const RIGHT_TIMESTAMP_FIELD: string := "right.timestamp.field"
  const GROUP_BY_FIELD: string := "group.by.field"
  const GROUP_BY_TIMESTAMP_FIELD: string := "group.by.timestamp.field"
  const AGGREGATE_TIMESTAMP_FIELD: string := "aggregate.timestamp.field"
  const JOIN_WINDOW_SIZE: string := "join.window.size"
  const GROUP_WINDOW_SIZE: string := "group.window.size"
  const JOIN_WINDOW_RETENTION: string := "join.window.retention"
  const GROUP_WINDOW_RETENTION: string := "group.window.retention"

  /** The keys whose values `put` parses. */
  predicate IsParsedKey(name: string) {
    name == LEFT_FIELDS || name == RIGHT_FIELDS || IsDurationKey(name)
  }

  predicate IsDurationKey(name: string) {
    name == JOIN_WINDOW_SIZE || name == GROUP_WINDOW_SIZE || name == JOIN_WINDOW_RETENTION || name == GROUP_WINDOW_RETENTION
  }

  /**
   * The state of a JoinerProperties object: the raw properties, the two
   * field maps (source field to alias) and the four durations (None while
   * still null).
   */
  datatype Config = Config(
    props: map<string, string>,
    leftFields: map<string, string>,
    rightFields: map<string, string>,
    joinWindowSize: Option<Duration>,
    groupWindowSize: Option<Duration>,
    joinWindowRetention: Option<Duration>,
    groupWindowRetention: Option<Duration>)

  /** A fresh object: no property, empty field maps, null durations. */
  const EmptyConfig := Config(map[], map[], map[], None, None, None, None)

  /** The exception `put` throws once the raw value is stored. */
  datatype PutError =
    | FieldsRejected(key: string, reason: FieldSpecError)  // parseFields threw
    | DurationRejected(key: string, text: string)          // Duration.parse threw

  /** The `switch (name)` of `put`: which typed field a key sets, if any. */
  datatype Slot =
    | LeftFieldsSlot | RightFieldsSlot
    | JoinWindowSizeSlot | GroupWindowSizeSlot | JoinWindowRetentionSlot | GroupWindowRetentionSlot
    | NoSlot

  function SlotOf(name: string): (s: Slot)
    ensures s == LeftFieldsSlot <==> name == LEFT_FIELDS
    ensures s == RightFieldsSlot <==> name == RIGHT_FIELDS
    ensures s == JoinWindowSizeSlot <==> name == JOIN_WINDOW_SIZE
    ensures s == GroupWindowSizeSlot <==> name == GROUP_WINDOW_SIZE
    ensures s == JoinWindowRetentionSlot <==> name == JOIN_WINDOW_RETENTION
    ensures s == GroupWindowRetentionSlot <==> name == GROUP_WINDOW_RETENTION
    ensures s == NoSlot <==> !IsParsedKey(name)
  {
    if name == LEFT_FIELDS then LeftFieldsSlot
    else if name == RIGHT_FIELDS then RightFieldsSlot
    else if name == JOIN_WINDOW_SIZE then JoinWindowSizeSlot
    else if name == GROUP_WINDOW_SIZE then GroupWindowSizeSlot
    else if name == JOIN_WINDOW_RETENTION then JoinWindowRetentionSlot
    else if name == GROUP_WINDOW_RETENTION then GroupWindowRetentionSlot
    else NoSlot
  }

  /** The exception `put(name, value)` throws, if any. */
  function PutFailure(name: string, value: string): (r: Option<PutError>)
    ensures r.Some? ==> IsParsedKey(name)
  {
    match SlotOf(name)
    case NoSlot => None
    case LeftFieldsSlot | RightFieldsSlot =>
      (match ParseFields(value)
       case Ok(_) => None
       case Err(e) => Some(FieldsRejected(name, e)))
    case _ => if Parse(value).None? then Some(DurationRejected(name, value)) else None
  }

  /** The field map a field-spec put leaves: the parsed one, or the old one when parsing throws. */
  function FieldsAfter(old_: map<string, string>, parsed: Result<map<string, string>, FieldSpecError>): map<string, string> {
    match parsed
    case Ok(m) => m
    case Err(_) => old_
  }

  /** The duration a duration put leaves: the parsed one, or the old one when parsing throws. */
  function DurationAfter(old_: Option<Duration>, parsed: Option<Duration>): Option<Duration> {
    if parsed.Some? then parsed else old_
  }

  /** The state after `put(name, value)`, whether or not it throws: a put that throws has stored the raw text and nothing else. */
  function AfterPut(c: Config, name: string, value: string): (r: Config)
    ensures r.props == c.props[name := value]
    ensures PutFailure(name, value).Some? ==> r == c.(props := c.props[name := value])
  {
    Store(c, name, value, ParseFields(value), Parse(value))
  }

  /** The `switch` of `put` once the value's parses are known: the slot of `name` takes its parse, if that did not throw. */
  function Store(c: Config, name: string, value: string, fields: Result<map<string, string>, FieldSpecError>, d: Option<Duration>): (r: Config)
    ensures r.props == c.props[name := value]
    ensures SlotOf(name) != LeftFieldsSlot ==> r.leftFields == c.leftFields
    ensures SlotOf(name) != RightFieldsSlot ==> r.rightFields == c.rightFields
    ensures SlotOf(name) != JoinWindowSizeSlot ==> r.joinWindowSize == c.joinWindowSize
    ensures SlotOf(name) != GroupWindowSizeSlot ==> r.groupWindowSize == c.groupWindowSize
    ensures SlotOf(name) != JoinWindowRetentionSlot ==> r.joinWindowRetention == c.joinWindowRetention
    ensures SlotOf(name) != GroupWindowRetentionSlot ==> r.groupWindowRetention == c.groupWindowRetention
  {
    var c1 := c.(props := c.props[name := value]);
    match SlotOf(name)
    case LeftFieldsSlot => c1.(leftFields := FieldsAfter(c.leftFields, fields))
    case RightFieldsSlot => c1.(rightFields := FieldsAfter(c.rightFields, fields))
    case JoinWindowSizeSlot => c1.(joinWindowSize := DurationAfter(c.joinWindowSize, d))
    case GroupWindowSizeSlot => c1.(groupWindowSize := DurationAfter(c.groupWindowSize, d))
    case JoinWindowRetentionSlot => c1.(joinWindowRetention := DurationAfter(c.joinWindowRetention, d))
    case GroupWindowRetentionSlot => c1.(groupWindowRetention := DurationAfter(c.groupWindowRetention, d))
    case NoSlot => c1
  }

  /** The raw value is stored under its name before any parsing, so even a put that throws keeps it. */
  lemma PutStoresRaw(c: Config, name: string, value: string)
    ensures AfterPut(c, name, value).props == c.props[name := value]
    ensures forall k :: k != name ==> Lookup(AfterPut(c, name, value).props, k) == Lookup(c.props, k)
    ensures Lookup(AfterPut(c, name, value).props, name) == Some(value)
  {
  }

  /** A key `put` does not parse changes no typed field and throws nothing. */
  lemma PutUnparsed(c: Config, name: string, value: string)
    requires !IsParsedKey(name)
    ensures AfterPut(c, name, value) == c.(props := c.props[name := value])
    ensures PutFailure(name, value).None?
  {
  }

  /**
   * A field-spec put replaces that side's map wholesale with the parsed
   * one (no earlier entry survives unless restated) and leaves everything
   * else; when parsing throws, every typed field is as before.
   */
  lemma PutFields(c: Config, name: string, value: string)
    requires name == LEFT_FIELDS || name == RIGHT_FIELDS
    ensures var r := AfterPut(c, name, value);
      && r.joinWindowSize == c.joinWindowSize && r.groupWindowSize == c.groupWindowSize
      && r.joinWindowRetention == c.joinWindowRetention && r.groupWindowRetention == c.groupWindowRetention
      && (name == LEFT_FIELDS ==> r.rightFields == c.rightFields)
      && (name == RIGHT_FIELDS ==> r.leftFields == c.leftFields)
    ensures ParseFields(value).Ok? ==>
      PutFailure(name, value).None? &&
      (if name == LEFT_FIELDS then AfterPut(c, name, value).leftFields else AfterPut(c, name, value).rightFields) == ParseFields(value).value
    ensures ParseFields(value).Err? ==>
      PutFailure(name, value) == Some(FieldsRejected(name, ParseFields(value).error)) &&
      AfterPut(c, name, value) == c.(props := c.props[name := value])
  {
  }

  /** Each duration key sets its own duration only; a text Duration.parse refuses leaves every typed field as before. */
  lemma PutDuration(c: Config, name: string, value: string)
    requires IsDurationKey(name)
    ensures var r := AfterPut(c, name, value);
      && r.leftFields == c.leftFields && r.rightFields == c.rightFields
      && r.joinWindowSize == (if name == JOIN_WINDOW_SIZE && Parse(value).Some? then Parse(value) else c.joinWindowSize)
      && r.groupWindowSize == (if name == GROUP_WINDOW_SIZE && Parse(value).Some? then Parse(value) else c.groupWindowSize)
      && r.joinWindowRetention == (if name == JOIN_WINDOW_RETENTION && Parse(value).Some? then Parse(value) else c.joinWindowRetention)
      && r.groupWindowRetention == (if name == GROUP_WINDOW_RETENTION && Parse(value).Some? then Parse(value) else c.groupWindowRetention)
    ensures PutFailure(name, value).Some? <==> Parse(value).None?
  {
  }

  /** A later put that does not throw erases every trace of an earlier put of the same name. */
  lemma PutLastWins(c: Config, name: string, v1: string, v2: string)
    requires PutFailure(name, v2).None?
    ensures AfterPut(AfterPut(c, name, v1), name, v2) == AfterPut(c, name, v2)
  {
    var s := SlotOf(name);
    assert (s == LeftFieldsSlot || s == RightFieldsSlot) ==> ParseFields(v2).Ok?;
    assert s != NoSlot && s != LeftFieldsSlot && s != RightFieldsSlot ==> Parse(v2).Some?;
    StoreTwice(c, name, v1, ParseFields(v1), Parse(v1), v2, ParseFields(v2), Parse(v2));
  }

  /** A second store under the same name, whose parse succeeded, overwrites all the first one wrote. */
  lemma StoreTwice(c: Config, name: string,
                   v1: string, f1: Result<map<string, string>, FieldSpecError>, d1: Option<Duration>,
                   v2: string, f2: Result<map<string, string>, FieldSpecError>, d2: Option<Duration>)
    requires (SlotOf(name) == LeftFieldsSlot || SlotOf(name) == RightFieldsSlot) ==> f2.Ok?
    requires SlotOf(name) != NoSlot && SlotOf(name) != LeftFieldsSlot && SlotOf(name) != RightFieldsSlot ==> d2.Some?
    ensures Store(Store(c, name, v1, f1, d1), name, v2, f2, d2) == Store(c, name, v2, f2, d2)
  {
    UpdateTwice(c.props, name, v1, v2);
  }

  lemma UpdateTwice<K, V>(m: map<K, V>, k: K, a: V, b: V)
    ensures m[k := a][k := b] == m[k := b]
  {
  }

  /** `Properties.getProperty(key)`: the stored text, or None for null. */
  function Lookup(props: map<string, string>, key: string): (r: Option<string>)
    ensures r.Some? <==> key in props
    ensures r.Some? ==> r.value == props[key]
  {
    if key in props then Some(props[key]) else None
  }

  /** The outcome of a load: the state reached and the exception that ended it early, if any. */
  datatype Loaded = Loaded(config: Config, failure: Option<PutError>)

  /** `loadFromProperties`: put each entry in iteration order; the first put that throws ends the load. */
  function Load(c: Config, entries: seq<(string, string)>): (r: Loaded)
    ensures r.failure.None? ==> forall i :: 0 <= i < |entries| ==> PutFailure(entries[i].0, entries[i].1).None?
    ensures r.failure.Some? ==> exists i :: 0 <= i < |entries| && r.failure == PutFailure(entries[i].0, entries[i].1)
  {
    LoadWith(AfterPut, PutFailure, c, entries)
  }

  /**
   * A load with the put given as the state it leaves (`store`) and the
   * exception it throws (`fail`), so that the lemmas below reason about the
   * loop alone.
   */
  function LoadWith(store: (Config, string, string) -> Config, fail: (string, string) -> Option<PutError>,
                    c: Config, entries: seq<(string, string)>): (r: Loaded)
    ensures r.failure.None? ==> forall i :: 0 <= i < |entries| ==> fail(entries[i].0, entries[i].1).None?
    ensures r.failure.Some? ==> exists i :: 0 <= i < |entries| && r.failure == fail(entries[i].0, entries[i].1)
    decreases |entries|
  {
    if entries == [] then Loaded(c, None)
    else
      var c1 := store(c, entries[0].0, entries[0].1);
      match fail(entries[0].0, entries[0].1)
      case Some(e) => Loaded(c1, Some(e))
      case None => LoadWith(store, fail, c1, entries[1..])
  }

  /** The map a sequence of entries writes: later entries of a name overwrite earlier ones. */
  function EntriesMap(entries: seq<(string, string)>): (m: map<string, string>)
    ensures m.Keys == set i | 0 <= i < |entries| :: entries[i].0
    decreases |entries|
  {
    if entries == [] then map[]
    else map[entries[0].0 := entries[0].1] + EntriesMap(entries[1..])
  }

  /** The value EntriesMap keeps for a name is that of its last entry. */
  lemma {:induction false} EntriesMapLast(entries: seq<(string, string)>, i: nat)
    requires i < |entries|
    requires forall j :: i < j < |entries| ==> entries[j].0 != entries[i].0
    ensures EntriesMap(entries)[entries[i].0] == entries[i].1
    decreases |entries|
  {
    if i > 0 {
      EntriesMapLast(entries[1..], i - 1);
    } else {
      forall j | 0 <= j < |entries| - 1 ensures entries[1..][j].0 != entries[0].0 {
        assert entries[1..][j] == entries[j + 1];
      }
    }
  }

  /** EntriesMap of a longer sequence: the last entry overwrites. */
  lemma {:induction false} EntriesMapAppend(entries: seq<(string, string)>, e: (string, string))
    ensures EntriesMap(entries + [e]) == EntriesMap(entries)[e.0 := e.1]
    decreases |entries|
  {
    if entries != [] {
      assert (entries + [e])[1..] == entries[1..] + [e];
      EntriesMapAppend(entries[1..], e);
    } else {
      assert EntriesMap([e]) == map[e.0 := e.1] + EntriesMap([]);
    }
  }

  /**
   * A load stores the raw value of every entry it reached; when no put
   * throws it reaches them all, so each name ends with its last entry's
   * value, over whatever the properties held before.
   */
  lemma LoadStoresAll(c: Config, entries: seq<(string, string)>)
    requires Load(c, entries).failure.None?
    ensures Load(c, entries).config.props == c.props + EntriesMap(entries)
    ensures forall i :: 0 <= i < |entries| ==> PutFailure(entries[i].0, entries[i].1).None?
  {
    forall c': Config, name: string, value: string ensures AfterPut(c', name, value).props == c'.props[name := value] {
      PutStoresRaw(c', name, value);
    }
    LoadWithStoresAll(AfterPut, PutFailure, c, entries);
  }

  lemma {:induction false} LoadWithStoresAll(store: (Config, string, string) -> Config, fail: (string, string) -> Option<PutError>,
                                             c: Config, entries: seq<(string, string)>)
    requires forall c': Config, name: string, value: string :: store(c', name, value).props == c'.props[name := value]
    requires LoadWith(store, fail, c, entries).failure.None?
    ensures LoadWith(store, fail, c, entries).config.props == c.props + EntriesMap(entries)
    ensures forall i :: 0 <= i < |entries| ==> fail(entries[i].0, entries[i].1).None?
    decreases |entries|
  {
    if entries != [] {
      var k, v := entries[0].0, entries[0].1;
      var c1 := store(c, k, v);
      LoadWithStoresAll(store, fail, c1, entries[1..]);
      UpdateThenUnion(c.props, k, v, EntriesMap(entries[1..]));
      forall i | 0 <= i < |entries| ensures fail(entries[i].0, entries[i].1).None? {
        if i > 0 {
          assert entries[i] == entries[1..][i - 1];
        }
      }
    }
  }

  lemma UpdateThenUnion(a: map<string, string>, k: string, v: string, b: map<string, string>)
    ensures a[k := v] + b == a + (map[k := v] + b)
  {
  }

  /**
   * One typed field after a load without failure: the value its key's last
   * entry put there, or the value it had before when no entry names the key.
   * `get` reads the field, `key` is the name that sets it and `parsed` is
   * what a put of `key` that does not throw leaves in it.
   */
  lemma {:induction false} LoadWithKeepsLast<T>(store: (Config, string, string) -> Config, fail: (string, string) -> Option<PutError>,
                                                get: Config -> T, key: string, parsed: string -> T,
                                                c: Config, entries: seq<(string, string)>)
    requires forall c': Config, value: string :: fail(key, value).None? ==> get(store(c', key, value)) == parsed(value)
    requires forall c': Config, name: string, value: string :: name != key ==> get(store(c', name, value)) == get(c')
    requires LoadWith(store, fail, c, entries).failure.None?
    ensures key in EntriesMap(entries) ==>
      && fail(key, EntriesMap(entries)[key]).None?
      && get(LoadWith(store, fail, c, entries).config) == parsed(EntriesMap(entries)[key])
    ensures key !in EntriesMap(entries) ==> get(LoadWith(store, fail, c, entries).config) == get(c)
    decreases |entries|
  {
    if entries != [] {
      var k, v := entries[0].0, entries[0].1;
      var c1 := store(c, k, v);
      assert LoadWith(store, fail, c, entries) == LoadWith(store, fail, c1, entries[1..]);
      LoadWithKeepsLast(store, fail, get, key, parsed, c1, entries[1..]);
      var rest := EntriesMap(entries[1..]);
      assert EntriesMap(entries) == map[k := v] + rest;
      if key !in rest && k == key {
        assert EntriesMap(entries)[key] == v;
      }
    }
  }

  /**
   * After a load in which no put throws, each typed field holds the parse
   * of the last entry for its key, or what it held before when no entry
   * names that key: later loads of a key overwrite earlier ones.
   */
  lemma LoadTypedFields(c: Config, entries: seq<(string, string)>)
    requires Load(c, entries).failure.None?
    ensures var r, m := Load(c, entries).config, EntriesMap(entries);
      && (LEFT_FIELDS in m ==> ParseFields(m[LEFT_FIELDS]) == Ok(r.leftFields))
      && (LEFT_FIELDS !in m ==> r.leftFields == c.leftFields)
      && (RIGHT_FIELDS in m ==> ParseFields(m[RIGHT_FIELDS]) == Ok(r.rightFields))
      && (RIGHT_FIELDS !in m ==> r.rightFields == c.rightFields)
    ensures var r, m := Load(c, entries).config, EntriesMap(entries);
      && (JOIN_WINDOW_SIZE in m ==> Parse(m[JOIN_WINDOW_SIZE]).Some? && r.joinWindowSize == Parse(m[JOIN_WINDOW_SIZE]))
      && (JOIN_WINDOW_SIZE !in m ==> r.joinWindowSize == c.joinWindowSize)
      && (GROUP_WINDOW_SIZE in m ==> Parse(m[GROUP_WINDOW_SIZE]).Some? && r.groupWindowSize == Parse(m[GROUP_WINDOW_SIZE]))
      && (GROUP_WINDOW_SIZE !in m ==> r.groupWindowSize == c.groupWindowSize)
      && (JOIN_WINDOW_RETENTION in m ==> Parse(m[JOIN_WINDOW_RETENTION]).Some? && r.joinWindowRetention == Parse(m[JOIN_WINDOW_RETENTION]))
      && (JOIN_WINDOW_RETENTION !in m ==> r.joinWindowRetention == c.joinWindowRetention)
      && (GROUP_WINDOW_RETENTION in m ==> Parse(m[GROUP_WINDOW_RETENTION]).Some? && r.groupWindowRetention == Parse(m[GROUP_WINDOW_RETENTION]))
      && (GROUP_WINDOW_RETENTION !in m ==> r.groupWindowRetention == c.groupWindowRetention)
  {
    LoadFieldsKey(c, entries, LEFT_FIELDS);
    LoadFieldsKey(c, entries, RIGHT_FIELDS);
    LoadDurationKey(c, entries, JOIN_WINDOW_SIZE);
    LoadDurationKey(c, entries, GROUP_WINDOW_SIZE);
    LoadDurationKey(c, entries, JOIN_WINDOW_RETENTION);
    LoadDurationKey(c, entries, GROUP_WINDOW_RETENTION);
  }

  /** The field map a field-spec key selects. */
  function FieldsOf(c: Config, key: string): map<string, string> {
    if key == LEFT_FIELDS then c.leftFields else c.rightFields
  }

  /** The duration a duration key selects. */
  function DurationOf(c: Config, key: string): Option<Duration> {
    if key == JOIN_WINDOW_SIZE then c.joinWindowSize
    else if key == GROUP_WINDOW_SIZE then c.groupWindowSize
    else if key == JOIN_WINDOW_RETENTION then c.joinWindowRetention
    else c.groupWindowRetention
  }

  /** A field-spec key after a load without failure: the parse of its last entry, or as before. */
  lemma LoadFieldsKey(c: Config, entries: seq<(string, string)>, key: string)
    requires key == LEFT_FIELDS || key == RIGHT_FIELDS
    requires Load(c, entries).failure.None?
    ensures var r, m := Load(c, entries).config, EntriesMap(entries);
      && (key in m ==> ParseFields(m[key]) == Ok(FieldsOf(r, key)))
      && (key !in m ==> FieldsOf(r, key) == FieldsOf(c, key))
  {
    var get := (c': Config) => FieldsOf(c', key);
    var parsed := (v: string) => if ParseFields(v).Ok? then ParseFields(v).value else map[];
    forall c': Config, value: string | PutFailure(key, value).None?
      ensures get(AfterPut(c', key, value)) == parsed(value)
    {
      assert ParseFields(value).Ok?;
      PutFields(c', key, value);
    }
    forall c': Config, name: string, value: string | name != key
      ensures get(AfterPut(c', name, value)) == get(c')
    {
      assert SlotOf(name) != SlotOf(key);
    }
    LoadWithKeepsLast(AfterPut, PutFailure, get, key, parsed, c, entries);
  }

  /** A duration key after a load without failure: the parse of its last entry, or as before. */
  lemma LoadDurationKey(c: Config, entries: seq<(string, string)>, key: string)
    requires IsDurationKey(key)
    requires Load(c, entries).failure.None?
    ensures var r, m := Load(c, entries).config, EntriesMap(entries);
      && (key in m ==> Parse(m[key]).Some? && DurationOf(r, key) == Parse(m[key]))
      && (key !in m ==> DurationOf(r, key) == DurationOf(c, key))
  {
    var get := (c': Config) => DurationOf(c', key);
    forall c': Config, value: string | PutFailure(key, value).None?
      ensures get(AfterPut(c', key, value)) == Parse(value)
    {
      PutDuration(c', key, value);
    }
    forall c': Config, name: string, value: string | name != key
      ensures get(AfterPut(c', name, value)) == get(c')
    {
      assert SlotOf(name) != SlotOf(key);
    }
    LoadWithKeepsLast(AfterPut, PutFailure, get, key, Parse, c, entries);
  }

  /** A load ends at the first entry whose put throws, with that entry's raw value already stored. */
  lemma LoadStopsAtFailure(c: Config, entries: seq<(string, string)>) returns (i: nat)
    requires Load(c, entries).failure.Some?
    ensures i < |entries| && PutFailure(entries[i].0, entries[i].1) == Load(c, entries).failure
    ensures forall j :: 0 <= j < i ==> PutFailure(entries[j].0, entries[j].1).None?
    ensures Load(c, entries[..i]).failure.None?
    ensures Load(c, entries).config == AfterPut(Load(c, entries[..i]).config, entries[i].0, entries[i].1)
  {
    i := LoadWithStopsAtFailure(AfterPut, PutFailure, c, entries);
  }

  lemma {:induction false} LoadWithStopsAtFailure(store: (Config, string, string) -> Config, fail: (string, string) -> Option<PutError>,
                                                   c: Config, entries: seq<(string, string)>) returns (i: nat)
    requires LoadWith(store, fail, c, entries).failure.Some?
    ensures i < |entries| && fail(entries[i].0, entries[i].1) == LoadWith(store, fail, c, entries).failure
    ensures forall j :: 0 <= j < i ==> fail(entries[j].0, entries[j].1).None?
    ensures LoadWith(store, fail, c, entries[..i]).failure.None?
    ensures LoadWith(store, fail, c, entries).config == store(LoadWith(store, fail, c, entries[..i]).config, entries[i].0, entries[i].1)
    decreases |entries|
  {
    if fail(entries[0].0, entries[0].1).Some? {
      i := 0;
      assert entries[..0] == [];
    } else {
      var c1 := store(c, entries[0].0, entries[0].1);
      var k := LoadWithStopsAtFailure(store, fail, c1, entries[1..]);
      i := k + 1;
      assert entries[..i][1..] == entries[1..][..k];
      forall j | 0 <= j < i ensures fail(entries[j].0, entries[j].1).None? {
        if j > 0 {
          assert entries[j] == entries[1..][j - 1];
        }
      }
    }
  }

  /** `k.replaceFirst(prefix, "").toLowerCase().replace('_', '.')` for a name that starts with the prefix. */
  function EnvName(prefix: string, key: string): (r: Option<string>)
    ensures r.Some? <==> StartsWith(key, prefix)
    ensures r.Some? ==> |r.value| == |key| - |prefix|
  {
    if StartsWith(key, prefix) then Some(PropertyText(key[|prefix|..])) else None
  }

  /** Lower-case, then every `_` becomes `.`. */
  function PropertyText(s: string): (r: string)
    ensures |r| == |s|
    ensures forall i :: 0 <= i < |s| ==> r[i] == Dotted(LowerChar(s[i]))
  {
    seq(|s|, i requires 0 <= i < |s| => Dotted(LowerChar(s[i])))
  }

  function Dotted(c: char): char {
    if c == '_' then '.' else c
  }

  /** A property name has no upper-case ASCII letter and no `_`. */
  predicate IsPropertyText(s: string) {
    forall i :: 0 <= i < |s| ==> !('A' <= s[i] <= 'Z') && s[i] != '_'
  }

  /** The conventional environment name of a property: upper-case, with `.` written `_`. */
  function EnvKey(prefix: string, name: string): string {
    prefix + seq(|name|, i requires 0 <= i < |name| => UpperUnderscore(name[i]))
  }

  function UpperUnderscore(c: char): char {
    if c == '.' then '_' else if 'a' <= c <= 'z' then ((c as int) - 32) as char else c
  }

  /** Every rewritten name is a property name. */
  lemma EnvNameIsPropertyText(prefix: string, key: string)
    requires EnvName(prefix, key).Some?
    ensures IsPropertyText(EnvName(prefix, key).value)
  {
  }

  /** The rewrite undoes the environment convention: the variable of a property name reads back as that name. */
  lemma EnvNameOfEnvKey(prefix: string, name: string)
    requires IsPropertyText(name)
    ensures EnvName(prefix, EnvKey(prefix, name)) == Some(name)
  {
    var key := EnvKey(prefix, name);
    assert key[..|prefix|] == prefix;
    var r := PropertyText(key[|prefix|..]);
    forall i | 0 <= i < |name| ensures r[i] == name[i] {
      assert key[|prefix|..][i] == UpperUnderscore(name[i]);
      CharRoundTrip(name[i]);
    }
    assert r == name;
  }

  /** One character of a property name survives the environment convention and the rewrite. */
  lemma CharRoundTrip(c: char)
    requires !('A' <= c <= 'Z') && c != '_'
    ensures Dotted(LowerChar(UpperUnderscore(c))) == c
  {
  }

  /** The environment convention example: `APP_LEFT_TOPIC` under prefix `APP_` is `left.topic`. */
  lemma EnvNameExample(prefix: string, key: string)
    requires prefix == "APP_" && key == "APP_LEFT_TOPIC"
    ensures EnvName(prefix, key) == Some(LEFT_TOPIC)
  {
    assert key == EnvKey(prefix, LEFT_TOPIC);
    EnvNameOfEnvKey(prefix, LEFT_TOPIC);
  }

  /** The properties the environment loop collects, as entries in getenv iteration order. */
  function EnvEntries(prefix: string, env: seq<(string, string)>): (r: seq<(string, string)>)
    ensures |r| <= |env|
    ensures forall i :: 0 <= i < |r| ==> IsPropertyText(r[i].0)
    decreases |env|
  {
    if env == [] then []
    else
      var last := env[|env| - 1];
      var rest := EnvEntries(prefix, env[..|env| - 1]);
      match EnvName(prefix, last.0)
      case Some(name) =>
        EnvNameIsPropertyText(prefix, last.0);
        rest + [(name, last.1)]
      case None => rest
  }

  /** The map the environment loop has collected: every name in it is a property name, lower-case and dotted. */
  function EnvMap(prefix: string, env: seq<(string, string)>): (m: map<string, string>)
    ensures forall k :: k in m ==> IsPropertyText(k)
  {
    EntriesMap(EnvEntries(prefix, env))
  }

  /** One step of the environment loop: a variable with the prefix is put under its rewritten name. */
  lemma EnvMapStep(prefix: string, env: seq<(string, string)>)
    requires env != []
    ensures var last := env[|env| - 1];
      EnvMap(prefix, env) ==
        if EnvName(prefix, last.0).Some? then EnvMap(prefix, env[..|env| - 1])[EnvName(prefix, last.0).value := last.1]
        else EnvMap(prefix, env[..|env| - 1])
  {
    var last := env[|env| - 1];
    if EnvName(prefix, last.0).Some? {
      EntriesMapAppend(EnvEntries(prefix, env[..|env| - 1]), (EnvName(prefix, last.0).value, last.1));
    }
  }

  /** A property comes from the environment exactly when some variable with the prefix rewrites to its name. */
  lemma {:induction false} EnvMapKeys(prefix: string, env: seq<(string, string)>, name: string)
    ensures name in EnvMap(prefix, env) <==> exists i :: 0 <= i < |env| && EnvName(prefix, env[i].0) == Some(name)
    decreases |env|
  {
    if env != [] {
      var n := |env| - 1;
      EnvMapStep(prefix, env);
      EnvMapKeys(prefix, env[..n], name);
      if EnvName(prefix, env[n].0) != Some(name) {
        forall i | 0 <= i < n ensures env[..n][i] == env[i] { }
      }
    }
  }

  /** A property from the environment holds the value of the last variable, in iteration order, that rewrites to its name. */
  lemma {:induction false} EnvMapLast(prefix: string, env: seq<(string, string)>, i: nat)
    requires i < |env| && EnvName(prefix, env[i].0).Some?
    requires forall j :: i < j < |env| ==> EnvName(prefix, env[j].0) != EnvName(prefix, env[i].0)
    ensures EnvName(prefix, env[i].0).value in EnvMap(prefix, env)
    ensures EnvMap(prefix, env)[EnvName(prefix, env[i].0).value] == env[i].1
    decreases |env|
  {
    var n := |env| - 1;
    EnvMapKeys(prefix, env, EnvName(prefix, env[i].0).value);
    EnvMapStep(prefix, env);
    if i < n {
      assert env[..n][i] == env[i];
      forall j | i < j < n ensures EnvName(prefix, env[..n][j].0) != EnvName(prefix, env[i].0) {
        assert env[..n][j] == env[j];
      }
      EnvMapLast(prefix, env[..n], i);
    }
  }

  /** The object's state and its methods. */
  class JoinerProperties {
    var props: map<string, string>
    var leftFields: map<string, string>
    var rightFields: map<string, string>
    var joinWindowSize: Option<Duration>
    var groupWindowSize: Option<Duration>
    var joinWindowRetention: Option<Duration>
    var groupWindowRetention: Option<Duration>

    /** The fields as one value. */
    function State(): Config
      reads this
    {
      Config(props, leftFields, rightFields, joinWindowSize, groupWindowSize, joinWindowRetention, groupWindowRetention)
    }

    constructor ()
      ensures State() == EmptyConfig
    {
      props := map[];
      leftFields := map[];
      rightFields := map[];
      joinWindowSize := None;
      groupWindowSize := None;
      joinWindowRetention := None;
      groupWindowRetention := None;
    }

    /** `put(name, value)`: store the raw text, then parse it if the key is one of the six. */
    method Put(name: string, value: string) returns (failure: Option<PutError>)
      modifies this
      ensures State() == AfterPut(old(State()), name, value)
      ensures failure == PutFailure(name, value)
    {
      props := props[name := value];
      failure := None;
      match SlotOf(name) {
        case LeftFieldsSlot =>
          var parsed := ParseFields(value);
          if parsed.Err? {
            return Some(FieldsRejected(name, parsed.error));
          }
          leftFields := parsed.value;
        case RightFieldsSlot =>
          var parsed := ParseFields(value);
          if parsed.Err? {
            return Some(FieldsRejected(name, parsed.error));
          }
          rightFields := parsed.value;
        case JoinWindowSizeSlot =>
          failure := ParseDuration(name, value);
          if failure.None? {
            joinWindowSize := Parse(value);
          }
        case GroupWindowSizeSlot =>
          failure := ParseDuration(name, value);
          if failure.None? {
            groupWindowSize := Parse(value);
          }
        case JoinWindowRetentionSlot =>
          failure := ParseDuration(name, value);
          if failure.None? {
            joinWindowRetention := Parse(value);
          }
        case GroupWindowRetentionSlot =>
          failure := ParseDuration(name, value);
          if failure.None? {
            groupWindowRetention := Parse(value);
          }
        case NoSlot =>
      }
    }

    /** `loadFromProperties(props)`: put every entry in the property set's iteration order. */
    method LoadFromProperties(entries: seq<(string, string)>) returns (failure: Option<PutError>)
      modifies this
      ensures State() == Load(old(State()), entries).config
      ensures failure == Load(old(State()), entries).failure
    {
      var i := 0;
      while i < |entries|
        invariant 0 <= i <= |entries|
        invariant Load(old(State()), entries) == Load(State(), entries[i..])
      {
        assert entries[i..][1..] == entries[i + 1..];
        failure := Put(entries[i].0, entries[i].1);
        if failure.Some? {
          return;
        }
        i := i + 1;
      }
      failure := None;
    }

    /**
     * `loadFromEnvironment(prefix)`: collect the variables that start with
     * the prefix under their rewritten names, then load that property set;
     * `order` is the set's iteration order.
     */
    method LoadFromEnvironment(prefix: string, env: seq<(string, string)>, order: seq<string>)
      returns (failure: Option<PutError>)
      requires forall i, j :: 0 <= i < j < |order| ==> order[i] != order[j]
      requires forall k :: k in order <==> k in EnvMap(prefix, env)
      modifies this
      ensures var m := EnvMap(prefix, env);
        var entries := seq(|order|, i requires 0 <= i < |order| => (order[i], m[order[i]]));
        State() == Load(old(State()), entries).config && failure == Load(old(State()), entries).failure
    {
      var collected := EnvProperties(prefix, env);
      var entries := seq(|order|, i requires 0 <= i < |order| => (order[i], collected[order[i]]));
      failure := LoadFromProperties(entries);
    }

    /** `leftTopic()` and the other plain accessors: `props.getProperty(key)`. */
    function Property(key: string): (r: Option<string>)
      reads this
      ensures r.Some? <==> key in props
      ensures r.Some? ==> r.value == props[key]
    {
      Lookup(props, key)
    }

    /** `leftMappedWhereField()`: the alias the left map gives the configured where field. */
    function LeftMappedWhereField(): (r: Option<string>)
      reads this
      ensures r.Some? <==> LEFT_WHERE_FIELD in props && props[LEFT_WHERE_FIELD] in leftFields
      ensures r.Some? ==> r.value == leftFields[props[LEFT_WHERE_FIELD]]
    {
      match Property(LEFT_WHERE_FIELD)
      case None => None
      case Some(f) => if f in leftFields then Some(leftFields[f]) else None
    }

    /** `rightMappedWhereField()`: the alias the right map gives the configured where field. */
    function RightMappedWhereField(): (r: Option<string>)
      reads this
      ensures r.Some? <==> RIGHT_WHERE_FIELD in props && props[RIGHT_WHERE_FIELD] in rightFields
      ensures r.Some? ==> r.value == rightFields[props[RIGHT_WHERE_FIELD]]
    {
      match Property(RIGHT_WHERE_FIELD)
      case None => None
      case Some(f) => if f in rightFields then Some(rightFields[f]) else None
    }

    /** `toMap()`: the properties as a map of strings; keys are unique, so the collector never throws. */
    function ToMap(): (r: map<string, string>)
      reads this
      ensures r.Keys == props.Keys
      ensures forall k :: k in r ==> Property(k) == Some(r[k])
    {
      props
    }
  }

  /** `Duration.parse(value)` as `put` calls it: the exception it throws for a refused text. */
  function ParseDuration(name: string, value: string): (r: Option<PutError>)
    ensures r.None? <==> Parse(value).Some?
  {
    if Parse(value).None? then Some(DurationRejected(name, value)) else None
  }

  /** The loop of `loadFromEnvironment`: each variable with the prefix is put under its rewritten name. */
  method EnvProperties(prefix: string, env: seq<(string, string)>) returns (collected: map<string, string>)
    ensures collected == EnvMap(prefix, env)
  {
    collected := map[];
    var i := 0;
    while i < |env|
      invariant 0 <= i <= |env|
      invariant collected == EnvMap(prefix, env[..i])
    {
      assert env[..i + 1][..i] == env[..i];
      EnvMapStep(prefix, env[..i + 1]);
      var name := EnvName(prefix, env[i].0);
      if name.Some? {
        collected := collected[name.value := env[i].1];
      }
      i := i + 1;
    }
    assert env[..i] == env;
  }
}
