# join_to_latest value helpers, modelled in Dafny

This project models the value-level helpers of the `join_to_latest` Kafka
Streams processor and of the KSQL `latest` aggregate. These are the pieces
that the topology plugs into the runtime:

- `JoinerProperties` is the processor's property bag. Every `put` stores the
  raw text. For six keys it also parses the value on the spot: `left.fields`
  and `right.fields` use the field-spec language `src AS alias, ...`, and the
  four window keys use `Duration.parse`. Loading from a property set, or from
  environment variables carrying a prefix, is a sequence of puts. Modelled as
  the class `Configuration.JoinerProperties`, proved against the
  specification functions `AfterPut` and `Load`.
- The field-spec language (`FieldSpec`) is `trim`, then Java's `String.split`
  with `\s*,\s*` and `(?i)\s+AS\s+`, then `Collectors.toMap`. The split is
  modelled exactly for these two patterns: the leftmost greedy match, trailing
  empty pieces dropped, and a text with no match kept whole.
  `FieldSpecRoundTrip` proves that a mapping written out in any legal layout
  parses back to itself.
- `Duration.parse` (`IsoDuration`) reads the ISO 8601 designator form
  `PnDTnHnMn.nS` (section 4.4.3.2 of ISO 8601:2004). The model covers the
  regular expression match and the overflow-checked arithmetic, and proves
  that every accepted text yields exactly the duration it denotes.
- `AvroFieldsValueJoiner` (`FieldsValueJoiner`) works as follows. On its first
  call it builds a merged schema: the left fields renamed through the left
  alias map, then the right fields renamed through the right map. It caches
  that schema. On every call it copies each source value into a
  `GenericRecordBuilder` under its alias. The slice of the Avro generic API
  that it uses is in `Avro`.
- The "latest wins" policy:
  - `AvroLastAggregator` keeps the arriving record unless the aggregate is
    strictly newer;
  - `AvroLastReducer` applies the same rule but tolerates a null on either side;
  - `LatestUdaf` is the KSQL collector, whose aggregate is always the last value.
- Two small projections:
  - `AvroTimestampExtractor` reads a `long` field;
  - `AvroKeyValueMapper` builds the group key `<ts>_<field>`.
- `Scenarios` runs the repository's sample data through the model. Two
  records of the unit test's schema are joined under the topology's alias
  tables, which gives the eight-field merged schema with the left values
  before the right ones. The topology's mapper then groups the joined record
  under the left timestamp and the left `key1`.

Java `null` is `None` throughout. Exceptions are `Err`/`Some(error)` results,
except where a bullet under "Left out" says otherwise. This includes:

- the exception `put` throws after storing the raw text;
- the failed `new Field(name, ...)` when a source field has no alias, or an
  alias that is not an Avro name;
- `Schema.createRecord` refusing two fields of one name.

The model keeps these error paths rather than requiring them away.

Where the repository's own description and the code differ, the model follows
the code:

- the timestamp extractor has no "0 when absent" default; it casts the field
  to `long`;
- a source field without an alias is not dropped by the joiner; the Avro
  `Field` constructor throws on the null name.

Kafka Streams calls a `Reducer` as `apply(aggregate, newValue)`. The source
names these parameters the other way round (`val`, `agg`). The model keeps
the source's names and order.

## Model

| member | source | states |
|---|---|---|
| Configuration.SlotOf | java/stream_processors/join_to_latest/src/main/java/io/ninety/joiner/JoinerProperties.java:163-182 | each of the six parsed keys, and only that key, selects its own typed field; every other key selects none |
| Configuration.PutFailure | java/stream_processors/join_to_latest/src/main/java/io/ninety/joiner/JoinerProperties.java:163-182 | `put` can throw only for one of the six parsed keys |
| Configuration.AfterPut | java/stream_processors/join_to_latest/src/main/java/io/ninety/joiner/JoinerProperties.java:159-183 | `put` always stores the raw text under its name; when it throws, that raw text is the only change |
| Configuration.Store | java/stream_processors/join_to_latest/src/main/java/io/ninety/joiner/JoinerProperties.java:159-183 | a put stores the raw text and changes at most the one typed field its key selects |
| Configuration.PutStoresRaw | java/stream_processors/join_to_latest/src/main/java/io/ninety/joiner/JoinerProperties.java:159-160 | the raw value is stored under its name, replacing any earlier value, even when the parse that follows throws; no other property changes |
| Configuration.PutUnparsed | java/stream_processors/join_to_latest/src/main/java/io/ninety/joiner/JoinerProperties.java:159-183 | a key outside the switch changes only the raw properties and never throws |
| Configuration.PutFields | java/stream_processors/join_to_latest/src/main/java/io/ninety/joiner/JoinerProperties.java:164-169 | a field-spec put replaces that side's map wholesale with the parsed map, leaving the other map and the four durations alone; if parsing throws, no typed field changes and the error is `FieldsRejected` |
| Configuration.PutDuration | java/stream_processors/join_to_latest/src/main/java/io/ninety/joiner/JoinerProperties.java:170-181 | each duration key sets only its own duration, to `Duration.parse(value)`; the put throws exactly when the parse refuses the text, and then no typed field changes |
| Configuration.PutLastWins | java/stream_processors/join_to_latest/src/main/java/io/ninety/joiner/JoinerProperties.java:159-183 | a later put of the same name that does not throw erases every effect of the earlier one |
| Configuration.StoreTwice | java/stream_processors/join_to_latest/src/main/java/io/ninety/joiner/JoinerProperties.java:159-183 | storing twice under one name keeps only the second store's raw value and typed fields |
| Configuration.ParseDuration | java/stream_processors/join_to_latest/src/main/java/io/ninety/joiner/JoinerProperties.java:170-181 | a duration put throws exactly when `Duration.parse` refuses the text |
| Configuration.Lookup | java/stream_processors/join_to_latest/src/main/java/io/ninety/joiner/JoinerProperties.java:67-121 | `getProperty` returns the stored text, or null when nothing is stored under the key |
| Configuration.EntriesMap | java/stream_processors/join_to_latest/src/main/java/io/ninety/joiner/JoinerProperties.java:45-47 | the names a load writes are exactly the names of its entries |
| Configuration.EntriesMapLast | java/stream_processors/join_to_latest/src/main/java/io/ninety/joiner/JoinerProperties.java:45-47 | a name ends with the value of its last entry in iteration order |
| Configuration.EntriesMapAppend | java/stream_processors/join_to_latest/src/main/java/io/ninety/joiner/JoinerProperties.java:45-47 | one more entry overrides its name and leaves every other name alone |
| Configuration.Load | java/stream_processors/join_to_latest/src/main/java/io/ninety/joiner/JoinerProperties.java:45-47 | a load that does not throw met no entry whose put throws; a load that throws reports the failure of one of its entries |
| Configuration.LoadWith | java/stream_processors/join_to_latest/src/main/java/io/ninety/joiner/JoinerProperties.java:45-47 | for any put and any failure test: a run without failure met no failing entry, and a failure reported is that of one of the entries |
| Configuration.LoadStoresAll | java/stream_processors/join_to_latest/src/main/java/io/ninety/joiner/JoinerProperties.java:45-47 | a load in which no put throws leaves the old properties overwritten by the entries, later entries winning, and every entry's put succeeded |
| Configuration.LoadStopsAtFailure | java/stream_processors/join_to_latest/src/main/java/io/ninety/joiner/JoinerProperties.java:45-47 | a load that throws stops at the first entry whose put throws; every earlier entry was put without error, and the failing entry's raw value is already stored |
| Configuration.LoadWithStoresAll | java/stream_processors/join_to_latest/src/main/java/io/ninety/joiner/JoinerProperties.java:45-47 | for any put and any failure test: a run without failure stores every entry over the old properties, later entries winning |
| Configuration.LoadTypedFields | java/stream_processors/join_to_latest/src/main/java/io/ninety/joiner/JoinerProperties.java:45-47 | after a load in which no put throws, each of the two field maps is the parse of the last entry for its key and each of the four durations is the parse of the last entry for its key; a typed field whose key no entry names keeps its old value |
| Configuration.LoadWithKeepsLast | java/stream_processors/join_to_latest/src/main/java/io/ninety/joiner/JoinerProperties.java:45-47 | for any put and any failure test: after a run without failure, a field that only its own key's put sets holds what the last entry for that key put there, or its old value when no entry names the key |
| Configuration.LoadFieldsKey | java/stream_processors/join_to_latest/src/main/java/io/ninety/joiner/JoinerProperties.java:164-169 | after a load without failure, `left.fields` or `right.fields` is the parse of the last entry for that key, or unchanged |
| Configuration.LoadDurationKey | java/stream_processors/join_to_latest/src/main/java/io/ninety/joiner/JoinerProperties.java:170-181 | after a load without failure, each window duration is `Duration.parse` of the last entry for its key, or unchanged |
| Configuration.LoadWithStopsAtFailure | java/stream_processors/join_to_latest/src/main/java/io/ninety/joiner/JoinerProperties.java:45-47 | for any put and any failure test: a failing run ends right after the first failing entry, whose store has been done |
| Configuration.EnvName | java/stream_processors/join_to_latest/src/main/java/io/ninety/joiner/JoinerProperties.java:52-53 | a variable is taken exactly when its name starts with the prefix, and its property name is as long as the rest of its name |
| Configuration.PropertyText | java/stream_processors/join_to_latest/src/main/java/io/ninety/joiner/JoinerProperties.java:53 | every character is lower-cased and every `_` becomes `.` |
| Configuration.EnvNameIsPropertyText | java/stream_processors/join_to_latest/src/main/java/io/ninety/joiner/JoinerProperties.java:53 | a rewritten name holds no upper-case letter and no `_` |
| Configuration.EnvNameOfEnvKey | java/stream_processors/join_to_latest/src/main/java/io/ninety/joiner/JoinerProperties.java:51-55 | the rewrite inverts the environment naming convention: the variable named after a property reads back as that property |
| Configuration.CharRoundTrip | java/stream_processors/join_to_latest/src/main/java/io/ninety/joiner/JoinerProperties.java:53 | lower-casing and turning `_` into `.` undoes upper-casing and turning `.` into `_`, for every character of a property name |
| Configuration.EnvNameExample | java/stream_processors/join_to_latest/src/main/java/io/ninety/joiner/JoinerProperties.java:51-55 | `APP_LEFT_TOPIC` under the prefix `APP_` is `left.topic` |
| Configuration.EnvEntries | java/stream_processors/join_to_latest/src/main/java/io/ninety/joiner/JoinerProperties.java:49-56 | the environment yields at most one entry per variable, each under a name with no upper-case ASCII letter and no `_` |
| Configuration.EnvMap | java/stream_processors/join_to_latest/src/main/java/io/ninety/joiner/JoinerProperties.java:49-56 | every property name taken from the environment has no upper-case ASCII letter and no `_` |
| Configuration.EnvMapStep | java/stream_processors/join_to_latest/src/main/java/io/ninety/joiner/JoinerProperties.java:51-56 | one step of the `forEach`: a prefixed variable is put under its rewritten name, and any other variable is skipped |
| Configuration.EnvMapKeys | java/stream_processors/join_to_latest/src/main/java/io/ninety/joiner/JoinerProperties.java:51-56 | a property is collected exactly when some prefixed variable rewrites to its name |
| Configuration.EnvMapLast | java/stream_processors/join_to_latest/src/main/java/io/ninety/joiner/JoinerProperties.java:51-56 | a collected property holds the value of the last variable, in iteration order, that rewrites to its name |
| Configuration.EnvProperties | java/stream_processors/join_to_latest/src/main/java/io/ninety/joiner/JoinerProperties.java:50-56 | the loop over the environment collects exactly the rewritten map |
| Configuration.JoinerProperties.constructor | java/stream_processors/join_to_latest/src/main/java/io/ninety/joiner/JoinerProperties.java:37-43 | a new object has no property, two empty field maps and four null durations |
| Configuration.JoinerProperties.Put | java/stream_processors/join_to_latest/src/main/java/io/ninety/joiner/JoinerProperties.java:159-183 | the new state is the old one after `put`, and the method throws exactly what `put` throws |
| Configuration.JoinerProperties.LoadFromProperties | java/stream_processors/join_to_latest/src/main/java/io/ninety/joiner/JoinerProperties.java:45-47 | puts the entries in iteration order, ending at the first that throws |
| Configuration.JoinerProperties.LoadFromEnvironment | java/stream_processors/join_to_latest/src/main/java/io/ninety/joiner/JoinerProperties.java:49-58 | collects the rewritten prefixed variables, then loads them in the collected set's iteration order |
| Configuration.JoinerProperties.Property | java/stream_processors/join_to_latest/src/main/java/io/ninety/joiner/JoinerProperties.java:67-121 | each plain accessor returns the stored text of its key, or null |
| Configuration.JoinerProperties.LeftMappedWhereField | java/stream_processors/join_to_latest/src/main/java/io/ninety/joiner/JoinerProperties.java:95-97 | the left map's alias of the stored `left.where.field`; null when either is missing |
| Configuration.JoinerProperties.RightMappedWhereField | java/stream_processors/join_to_latest/src/main/java/io/ninety/joiner/JoinerProperties.java:99-101 | the right map's alias of the stored `right.where.field`; null when either is missing |
| Configuration.JoinerProperties.ToMap | java/stream_processors/join_to_latest/src/main/java/io/ninety/joiner/JoinerProperties.java:143-146 | the properties as a map with the same keys, each holding its stored text |
| FieldSpec.SpaceRun | java/stream_processors/join_to_latest/src/main/java/io/ninety/joiner/JoinerProperties.java:33-34 | `\s*` and `\s+` consume the whole run of whitespace and stop at the first non-space |
| FieldSpec.MatchAt | java/stream_processors/join_to_latest/src/main/java/io/ninety/joiner/JoinerProperties.java:33-34 | a separator matched at a position ends after it and inside the text |
| FieldSpec.FindFrom | java/stream_processors/join_to_latest/src/main/java/io/ninety/joiner/JoinerProperties.java:149-151 | a match found lies inside the text and at or after the start position |
| FieldSpec.FindFromLeftmost | java/stream_processors/join_to_latest/src/main/java/io/ninety/joiner/JoinerProperties.java:149-151 | the split takes the leftmost match of the separator; when none is found, none exists |
| FieldSpec.DropTrailingEmpty | java/stream_processors/join_to_latest/src/main/java/io/ninety/joiner/JoinerProperties.java:149-151 | `split` drops trailing empty pieces only, keeping the rest in order |
| FieldSpec.Pieces | java/stream_processors/join_to_latest/src/main/java/io/ninety/joiner/JoinerProperties.java:149-151 | the text always yields at least one piece before trailing empties are dropped |
| FieldSpec.SplitShape | java/stream_processors/join_to_latest/src/main/java/io/ninety/joiner/JoinerProperties.java:149-151 | `split` returns the whole text when the separator never matches, and otherwise the pieces between matches in order, with the trailing empty ones, and only those, dropped |
| FieldSpec.Collect | java/stream_processors/join_to_latest/src/main/java/io/ninety/joiner/JoinerProperties.java:150-156 | collecting never loses a source field already collected |
| FieldSpecProperties.CollectStep | java/stream_processors/join_to_latest/src/main/java/io/ninety/joiner/JoinerProperties.java:150-156 | a clause that does not split in two is refused; a repeated source field is refused; otherwise the pair is added and collecting goes on |
| FieldSpecProperties.CollectOk | java/stream_processors/join_to_latest/src/main/java/io/ninety/joiner/JoinerProperties.java:150-156 | collecting succeeds exactly when every clause splits into two names and no source field repeats |
| FieldSpecProperties.CollectValue | java/stream_processors/join_to_latest/src/main/java/io/ninety/joiner/JoinerProperties.java:150-156 | on success the map sends each clause's source field to its alias and holds nothing else |
| FieldSpecProperties.ParseFieldsOk | java/stream_processors/join_to_latest/src/main/java/io/ninety/joiner/JoinerProperties.java:148-157 | `parseFields` succeeds exactly when every clause is `name AS alias` and no source field repeats; its map then has exactly those keys and aliases |
| FieldSpecProperties.CollectBadClause | java/stream_processors/join_to_latest/src/main/java/io/ninety/joiner/JoinerProperties.java:151-154 | a "Bad field specifier" error names a clause that does not split into two names |
| FieldSpecProperties.CollectDuplicate | java/stream_processors/join_to_latest/src/main/java/io/ninety/joiner/JoinerProperties.java:156 | a duplicate-key error names a source field given by two clauses, or one already collected |
| FieldSpecProperties.ParseFieldsErr | java/stream_processors/join_to_latest/src/main/java/io/ninety/joiner/JoinerProperties.java:148-157 | every error of `parseFields` points at its cause: a clause that is not a pair, or two clauses with the same source field |
| FieldSpecRoundTrip.AsMatch | java/stream_processors/join_to_latest/src/main/java/io/ninety/joiner/JoinerProperties.java:34 | `AS` in any case, with at least one whitespace character on each side, is one separator that ends where the alias starts |
| FieldSpecRoundTrip.CommaMatch | java/stream_processors/join_to_latest/src/main/java/io/ninety/joiner/JoinerProperties.java:33 | a comma with any whitespace around it is one separator that ends where the next clause starts |
| FieldSpecRoundTrip.SplitClause | java/stream_processors/join_to_latest/src/main/java/io/ninety/joiner/JoinerProperties.java:151 | `k AS v` splits into exactly `[k, v]`, whatever the case of `AS` and the spacing |
| FieldSpecRoundTrip.TrimAround | java/stream_processors/join_to_latest/src/main/java/io/ninety/joiner/JoinerProperties.java:149 | `trim` removes exactly the padding around the text |
| FieldSpecRoundTrip.ClausesOfFormat | java/stream_processors/join_to_latest/src/main/java/io/ninety/joiner/JoinerProperties.java:149 | the trimmed comma split of a written mapping is its clauses, in order |
| FieldSpecRoundTrip.ClausePairsOfFormat | java/stream_processors/join_to_latest/src/main/java/io/ninety/joiner/JoinerProperties.java:149-155 | every clause of a written mapping splits into its own pair |
| FieldSpecRoundTrip.ParseFormat | java/stream_processors/join_to_latest/src/main/java/io/ninety/joiner/JoinerProperties.java:148-157 | parsing a mapping written in any legal layout gives back exactly that mapping |
| FieldSpecRoundTrip.ParseFormatDuplicate | java/stream_processors/join_to_latest/src/main/java/io/ninety/joiner/JoinerProperties.java:156 | a written mapping that names a source field twice is refused with a duplicate-key error for that field |
| FieldSpecRoundTrip.ParseNoAs | java/stream_processors/join_to_latest/src/main/java/io/ninety/joiner/JoinerProperties.java:151-154 | a clause without `AS` is a bad field specifier |
| FieldSpecRoundTrip.TwoAsSplit | java/stream_processors/join_to_latest/src/main/java/io/ninety/joiner/JoinerProperties.java:151 | a clause with two `AS` separators splits into three names |
| FieldSpecRoundTrip.ParseTwoAs | java/stream_processors/join_to_latest/src/main/java/io/ninety/joiner/JoinerProperties.java:151-154 | a clause with two `AS` separators is a bad field specifier |
| FieldSpecRoundTrip.ParseTwoPairs | java/stream_processors/join_to_latest/src/main/java/io/ninety/joiner/JoinerProperties.java:148-157 | a two-clause spec with different source fields gives the two-entry map |
| FieldSpecRoundTrip.ParseTwoFields | java/stream_processors/join_to_latest/src/main/java/io/ninety/joiner/JoinerProperties.java:18 | `a AS x, b AS y` gives {a → x, b → y} |
| FieldSpecRoundTrip.ParseEmpty | java/stream_processors/join_to_latest/src/main/java/io/ninety/joiner/JoinerProperties.java:149-154 | an empty spec is one empty clause, which is a bad field specifier |
| FieldSpecRoundTrip.ParseLoneComma | java/stream_processors/join_to_latest/src/main/java/io/ninety/joiner/JoinerProperties.java:149-156 | a lone comma splits into two empty pieces that `split` drops, so the map is empty |
| IsoDuration.Parse | java/stream_processors/join_to_latest/src/main/java/io/ninety/joiner/JoinerProperties.java:171 | an accepted text matched the ISO 8601 pattern and yields a valid duration: `long` seconds and nanoseconds in [0, 10^9) |
| IsoDuration.AddExact | java/stream_processors/join_to_latest/src/main/java/io/ninety/joiner/JoinerProperties.java:171 | `Math.addExact` gives the exact sum, and fails exactly when it leaves the `long` range |
| IsoDuration.MultiplyExact | java/stream_processors/join_to_latest/src/main/java/io/ninety/joiner/JoinerProperties.java:171 | `Math.multiplyExact` gives the exact product, and fails exactly when it leaves the `long` range |
| IsoDuration.DivNanos | java/stream_processors/join_to_latest/src/main/java/io/ninety/joiner/JoinerProperties.java:171 | splitting a count of nanoseconds into seconds and nanoseconds undoes their combination |
| IsoDuration.Match | java/stream_processors/join_to_latest/src/main/java/io/ninety/joiner/JoinerProperties.java:171 | a matched text yields well-formed groups: every captured number is a signed decimal and the fraction has at most nine digits |
| IsoDuration.TimePart | java/stream_processors/join_to_latest/src/main/java/io/ninety/joiner/JoinerProperties.java:171 | the time part after `T` captures at least one of hours, minutes and seconds, each a well-formed number |
| IsoDuration.MatchAt | java/stream_processors/join_to_latest/src/main/java/io/ninety/joiner/JoinerProperties.java:171 | a text laid out as sign, `P`, days `D`, `T`, hours `H`, minutes `M` and seconds `S` matches with exactly those groups |
| IsoDuration.ParseNumberValue | java/stream_processors/join_to_latest/src/main/java/io/ninety/joiner/JoinerProperties.java:171 | a present group parses to its signed value times the unit |
| IsoDuration.OfSeconds | java/stream_processors/join_to_latest/src/main/java/io/ninety/joiner/JoinerProperties.java:171 | `ofSeconds` keeps the total length and fails exactly when the carried seconds leave the `long` range |
| IsoDuration.Negated | java/stream_processors/join_to_latest/src/main/java/io/ninety/joiner/JoinerProperties.java:171 | a negated duration has exactly the opposite length |
| IsoDuration.NegatedFails | java/stream_processors/join_to_latest/src/main/java/io/ninety/joiner/JoinerProperties.java:171 | negation fails only for the most negative duration |
| IsoDuration.Create | java/stream_processors/join_to_latest/src/main/java/io/ninety/joiner/JoinerProperties.java:171 | the duration built from the parsed parts has their exact signed sum as its length |
| IsoDuration.EvaluateExact | java/stream_processors/join_to_latest/src/main/java/io/ninety/joiner/JoinerProperties.java:171 | the arithmetic after the match computes exactly what the groups denote |
| IsoDuration.ParseExact | java/stream_processors/join_to_latest/src/main/java/io/ninety/joiner/JoinerProperties.java:170-181 | whatever `Duration.parse` returns is exactly the duration its text denotes; nothing is rounded |
| IsoDuration.FractionBound | java/stream_processors/join_to_latest/src/main/java/io/ninety/joiner/JoinerProperties.java:171 | a fraction of at most nine digits is less than one second |
| IsoDuration.CreateBounded | java/stream_processors/join_to_latest/src/main/java/io/ninety/joiner/JoinerProperties.java:171 | parts within a quarter of the `long` range each never overflow |
| IsoDuration.EvaluateBounded | java/stream_processors/join_to_latest/src/main/java/io/ninety/joiner/JoinerProperties.java:171 | matched groups within a quarter of the `long` range always evaluate |
| IsoDuration.ParseOf | java/stream_processors/join_to_latest/src/main/java/io/ninety/joiner/JoinerProperties.java:171 | a matched text with some component, and in range, parses to the duration its groups denote |
| IsoDuration.MatchComponents | java/stream_processors/join_to_latest/src/main/java/io/ninety/joiner/JoinerProperties.java:171 | the pattern captures the sign and each written number of `[-]PnDTnHnMnS` |
| IsoDuration.ParseComponents | java/stream_processors/join_to_latest/src/main/java/io/ninety/joiner/JoinerProperties.java:170-181 | `[-]PnDTnHnMnS`, with any decimal number texts in range, parses to the signed sum of its components |
| IsoDuration.ParseDurationText | java/stream_processors/join_to_latest/src/main/java/io/ninety/joiner/JoinerProperties.java:170-181 | a duration written out with `Long.toString` components reads back as the same length |
| IsoDurationExamples.ParseFifteenMinutes | java/stream_processors/join_to_latest/src/main/java/io/ninety/joiner/JoinerProperties.java:171 | `PT15M` is 900 seconds |
| IsoDurationExamples.ParseFractionalSeconds | java/stream_processors/join_to_latest/src/main/java/io/ninety/joiner/JoinerProperties.java:171 | `PT20.345S` is 20 s 345 ms |
| IsoDurationExamples.ParseDaysHoursMinutes | java/stream_processors/join_to_latest/src/main/java/io/ninety/joiner/JoinerProperties.java:171 | `P2DT3H4M` is 183840 seconds |
| IsoDurationExamples.ParseNegatedWhole | java/stream_processors/join_to_latest/src/main/java/io/ninety/joiner/JoinerProperties.java:171 | a leading `-` negates the whole duration |
| IsoDurationExamples.ParseNegatedComponent | java/stream_processors/join_to_latest/src/main/java/io/ninety/joiner/JoinerProperties.java:171 | a sign on one component negates that component only |
| IsoDurationExamples.ParseBothSigns | java/stream_processors/join_to_latest/src/main/java/io/ninety/joiner/JoinerProperties.java:171 | both signs combine: `-PT-6H+3M` is plus six hours minus three minutes |
| IsoDurationExamples.ParseNoComponent | java/stream_processors/join_to_latest/src/main/java/io/ninety/joiner/JoinerProperties.java:171 | `P` alone is refused |
| IsoDurationExamples.ParseBareTime | java/stream_processors/join_to_latest/src/main/java/io/ninety/joiner/JoinerProperties.java:171 | `PT` is refused |
| IsoDurationExamples.ParseDayBareTime | java/stream_processors/join_to_latest/src/main/java/io/ninety/joiner/JoinerProperties.java:171 | `P1DT` is refused for its empty time part |
| IsoDurationExamples.ParseDayLowerTime | java/stream_processors/join_to_latest/src/main/java/io/ninety/joiner/JoinerProperties.java:171 | `P1Dt` is accepted as one day, because the empty-time check compares with upper-case `T` only |
| IsoDurationExamples.ParseNoDesignator | java/stream_processors/join_to_latest/src/main/java/io/ninety/joiner/JoinerProperties.java:171 | a text without `P` is refused |
| JavaText.LongTextValue | java/stream_processors/join_to_latest/src/main/java/io/ninety/joiner/AvroKeyValueMapper.java:24 | reading back `String.valueOf(long)` as a signed decimal gives the number |
| JavaText.LongTextInjective | java/stream_processors/join_to_latest/src/main/java/io/ninety/joiner/AvroKeyValueMapper.java:24 | different `long`s have different decimal texts |
| JavaText.LongText | java/stream_processors/join_to_latest/src/main/java/io/ninety/joiner/AvroKeyValueMapper.java:24 | the decimal text of a number is non-empty and holds only digits after an optional leading `-` |
| JavaText.NatTextValue | java/stream_processors/join_to_latest/src/main/java/io/ninety/joiner/AvroKeyValueMapper.java:24 | reading back the decimal digits of a natural number gives the number |
| JavaText.Trim | java/stream_processors/join_to_latest/src/main/java/io/ninety/joiner/JoinerProperties.java:149 | `trim` leaves a text that neither starts nor ends with a character up to U+0020 |
| JavaText.TrimStart | java/stream_processors/join_to_latest/src/main/java/io/ninety/joiner/JoinerProperties.java:149 | removing the leading padding leaves a suffix of the text that does not start with padding |
| JavaText.TrimEnd | java/stream_processors/join_to_latest/src/main/java/io/ninety/joiner/JoinerProperties.java:149 | removing the trailing padding leaves a prefix of the text that does not end with padding |
| JavaText.TrimVisible | java/stream_processors/join_to_latest/src/main/java/io/ninety/joiner/JoinerProperties.java:149 | trimming a text with visible ends changes nothing |
| JavaText.LowerChar | java/stream_processors/join_to_latest/src/main/java/io/ninety/joiner/JoinerProperties.java:53 | lower-casing leaves no upper-case ASCII letter and changes nothing else |
| Avro.ValueText | java/stream_processors/join_to_latest/src/main/java/io/ninety/joiner/AvroKeyValueMapper.java:24 | `String.valueOf` of a null field is `null`, and of a string field is the string itself |
| Avro.FieldIndex | java/stream_processors/join_to_latest/src/main/java/io/ninety/joiner/AvroFieldsValueJoiner.java:65 | finds a field of the given name, or reports that none exists |
| Avro.FieldIndexOf | java/stream_processors/join_to_latest/src/main/java/io/ninety/joiner/AvroFieldsValueJoiner.java:65 | in a schema with distinct names, each field is found at its own position |
| Avro.FirstRepeat | java/stream_processors/join_to_latest/src/main/java/io/ninety/joiner/AvroFieldsValueJoiner.java:38 | a repeated field name is reported exactly when the names are not distinct, and it is one of the names |
| Avro.Get | java/stream_processors/join_to_latest/src/main/java/io/ninety/joiner/AvroFieldsValueJoiner.java:65 | `r.get(name)` is the value of the field of that name, or null when the schema has none |
| Avro.CreateRecord | java/stream_processors/join_to_latest/src/main/java/io/ninety/joiner/AvroFieldsValueJoiner.java:38 | `createRecord` succeeds exactly when the field names are distinct; it then keeps the name, doc, namespace and fields |
| Avro.BuildValues | java/stream_processors/join_to_latest/src/main/java/io/ninety/joiner/AvroFieldsValueJoiner.java:43 | `build()` succeeds exactly when every field was set or has a default, and then holds those values in field order |
| Avro.BuildFails | java/stream_processors/join_to_latest/src/main/java/io/ninety/joiner/AvroFieldsValueJoiner.java:43 | once a field can be neither read nor defaulted, `build()` fails with that field's error whatever follows |
| Avro.RecordBuilder.constructor | java/stream_processors/join_to_latest/src/main/java/io/ninety/joiner/AvroFieldsValueJoiner.java:40 | a new builder has no field set |
| Avro.RecordBuilder.Set | java/stream_processors/join_to_latest/src/main/java/io/ninety/joiner/AvroFieldsValueJoiner.java:67 | `set` stores the value in the field of that name and nowhere else; it throws and changes nothing when there is no such field |
| Avro.RecordBuilder.Build | java/stream_processors/join_to_latest/src/main/java/io/ninety/joiner/AvroFieldsValueJoiner.java:43 | the loop over the fields builds exactly the record `BuildValues` describes, or fails with its error |
| FieldsValueJoiner.Renamed | java/stream_processors/join_to_latest/src/main/java/io/ninety/joiner/AvroFieldsValueJoiner.java:53 | a renamed field keeps the type, doc and default of the source field under the new name |
| FieldsValueJoiner.MappedFields | java/stream_processors/join_to_latest/src/main/java/io/ninety/joiner/AvroFieldsValueJoiner.java:48-59 | `mapFields` succeeds exactly when every field has an alias that Avro accepts as a name (a letter or `_`, then letters, digits or `_`), and then renames each field in schema order |
| FieldsValueJoiner.MapFields | java/stream_processors/join_to_latest/src/main/java/io/ninety/joiner/AvroFieldsValueJoiner.java:48-59 | the loop that appends renamed fields computes `MappedFields`, stopping at the first field whose alias is missing or not an Avro name |
| FieldsValueJoiner.MappedFieldsFirstBad | java/stream_processors/join_to_latest/src/main/java/io/ninety/joiner/AvroFieldsValueJoiner.java:50-56 | when some field cannot be renamed, `mapFields` fails with the error of the first such field in schema order; the `fnew != null` check filters nothing |
| FieldsValueJoiner.RenameError | java/stream_processors/join_to_latest/src/main/java/io/ninety/joiner/AvroFieldsValueJoiner.java:53 | `new Field` fails with a null-name error exactly when the alias is missing, and otherwise with an illegal-name error |
| FieldsValueJoiner.MappedFieldsIllegal | java/stream_processors/join_to_latest/src/main/java/io/ninety/joiner/AvroFieldsValueJoiner.java:53 | aliases `event-time`, the empty text and `1x` are refused as illegal names, the last even though a later field has no alias |
| FieldsValueJoiner.MappedFieldsFails | java/stream_processors/join_to_latest/src/main/java/io/ninety/joiner/AvroFieldsValueJoiner.java:50-56 | once a field that cannot be renamed is reached, the fields after it play no part in the outcome |
| FieldsValueJoiner.MergedSchema | java/stream_processors/join_to_latest/src/main/java/io/ninety/joiner/AvroFieldsValueJoiner.java:33-38 | a merged schema has one field per left and right field, with pairwise distinct names that are all Avro names |
| FieldsValueJoiner.MergedSchemaShape | java/stream_processors/join_to_latest/src/main/java/io/ninety/joiner/AvroFieldsValueJoiner.java:33-38 | the merged schema exists exactly when every field has an alias that is an Avro name and all aliases are distinct; it is `io.ninety.myschema` with the renamed left fields followed by the renamed right fields |
| FieldsValueJoiner.AliasesAt | java/stream_processors/join_to_latest/src/main/java/io/ninety/joiner/AvroFieldsValueJoiner.java:33-38 | in the merged schema each left alias names the field at its source position, and each right alias the field after all the left ones |
| FieldsValueJoiner.LeftAliasesAt | java/stream_processors/join_to_latest/src/main/java/io/ninety/joiner/AvroFieldsValueJoiner.java:33-38 | in the merged schema each left alias names the field at its source position |
| FieldsValueJoiner.RightAliasesAt | java/stream_processors/join_to_latest/src/main/java/io/ninety/joiner/AvroFieldsValueJoiner.java:33-38 | in the merged schema each right alias names the field at its source position after all the left ones |
| FieldsValueJoiner.RenamedConcat | java/stream_processors/join_to_latest/src/main/java/io/ninety/joiner/AvroFieldsValueJoiner.java:33-38 | the merged field list has the renamed left fields at their positions, then the renamed right fields shifted past them |
| FieldsValueJoiner.Pairs | java/stream_processors/join_to_latest/src/main/java/io/ninety/joiner/AvroFieldsValueJoiner.java:62-65 | `mergeValue` walks the fields in schema order, with `r.get(name)` giving each one's own value |
| FieldsValueJoiner.MergeStep | java/stream_processors/join_to_latest/src/main/java/io/ninety/joiner/AvroFieldsValueJoiner.java:63-68 | one `b.set(m.get(name), val)`: a missing alias throws the null-name error; an alias that is not a field of the schema throws; otherwise only that field's slot takes the value |
| FieldsValueJoiner.Merge | java/stream_processors/join_to_latest/src/main/java/io/ninety/joiner/AvroFieldsValueJoiner.java:61-69 | merging keeps the number of slots of the target schema |
| FieldsValueJoiner.MergeSets | java/stream_processors/join_to_latest/src/main/java/io/ninety/joiner/AvroFieldsValueJoiner.java:65-67 | a pair whose alias names a target field sets only that slot and merging goes on |
| FieldsValueJoiner.MergeFails | java/stream_processors/join_to_latest/src/main/java/io/ninety/joiner/AvroFieldsValueJoiner.java:63-68 | once one `set` throws, the pairs after it play no part |
| FieldsValueJoiner.MergeCopies | java/stream_processors/join_to_latest/src/main/java/io/ninety/joiner/AvroFieldsValueJoiner.java:61-68 | every prefix of aligned pairs writes its values at consecutive slots and throws nothing |
| FieldsValueJoiner.MergeValue | java/stream_processors/join_to_latest/src/main/java/io/ninety/joiner/AvroFieldsValueJoiner.java:61-69 | the loop over the builder leaves exactly the slots and the error of the specified merge |
| FieldsValueJoiner.MergeCopiesAll | java/stream_processors/join_to_latest/src/main/java/io/ninety/joiner/AvroFieldsValueJoiner.java:61-68 | when each field's alias names the target field at its own offset, merging writes the record's values there in order and throws nothing |
| FieldsValueJoiner.FilledByBoth | java/stream_processors/join_to_latest/src/main/java/io/ninety/joiner/AvroFieldsValueJoiner.java:40-43 | merging the left record and then the right one sets every field, so `build()` yields the left values followed by the right values |
| FieldsValueJoiner.BuildFilled | java/stream_processors/join_to_latest/src/main/java/io/ninety/joiner/AvroFieldsValueJoiner.java:43 | a builder with every field set builds exactly the set values |
| FieldsValueJoiner.FillsCompose | java/stream_processors/join_to_latest/src/main/java/io/ninety/joiner/AvroFieldsValueJoiner.java:40-43 | writing the left values at the front and then the right values after them fills every slot with the left values followed by the right ones |
| FieldsValueJoiner.GetCopies | java/stream_processors/join_to_latest/src/main/java/io/ninety/joiner/AvroFieldsValueJoiner.java:65-67 | reading the joined record under an alias gives back the value of the field that alias renames, on both sides |
| FieldsValueJoiner.Join | java/stream_processors/join_to_latest/src/main/java/io/ninety/joiner/AvroFieldsValueJoiner.java:27-46 | a join that succeeds has one value per field; it uses the cached schema when there is one, and otherwise the schema merged from both records |
| FieldsValueJoiner.JoinInto | java/stream_processors/join_to_latest/src/main/java/io/ninety/joiner/AvroFieldsValueJoiner.java:40-43 | the built record has the given schema and one value per field |
| FieldsValueJoiner.AvroFieldsValueJoiner.constructor | java/stream_processors/join_to_latest/src/main/java/io/ninety/joiner/AvroFieldsValueJoiner.java:18-25 | a new joiner keeps both alias maps and has no schema yet |
| FieldsValueJoiner.AvroFieldsValueJoiner.Apply | java/stream_processors/join_to_latest/src/main/java/io/ninety/joiner/AvroFieldsValueJoiner.java:27-46 | builds and caches the schema only when none is cached, then returns the specified join of both records |
| FieldsValueJoiner.JoinFirstCall | java/stream_processors/join_to_latest/src/main/java/io/ninety/joiner/AvroFieldsValueJoiner.java:32-43 | the first call returns the merged-schema record holding the left values followed by the right values |
| FieldsValueJoiner.JoinOf | java/stream_processors/join_to_latest/src/main/java/io/ninety/joiner/AvroFieldsValueJoiner.java:32-43 | with a schema available and every alias in place, the join is that schema's record of the left values followed by the right values |
| FieldsValueJoiner.JoinCopiesValues | java/stream_processors/join_to_latest/src/main/java/io/ninety/joiner/AvroFieldsValueJoiner.java:61-68 | in the joined record, each source field's alias holds that field's value, on both sides |
| FieldsValueJoiner.JoinReusesSchema | java/stream_processors/join_to_latest/src/main/java/io/ninety/joiner/AvroFieldsValueJoiner.java:32-39 | once a schema is cached it is never rebuilt, and every later result uses it, whatever the input schemas |
| FieldsValueJoiner.JoinCachedAgrees | java/stream_processors/join_to_latest/src/main/java/io/ninety/joiner/AvroFieldsValueJoiner.java:32-43 | later calls with inputs of the first call's schemas join exactly as the first call did |
| FieldsValueJoiner.JoinBadAlias | java/stream_processors/join_to_latest/src/main/java/io/ninety/joiner/AvroFieldsValueJoiner.java:33-34 | a source field that cannot be renamed fails the first call with that field's error (null name or illegal name), for the left record's first such field if it has one |
| TimestampExtractor.Create | java/stream_processors/join_to_latest/src/main/java/io/ninety/joiner/AvroTimestampExtractor.java:9-17 | the extractor keeps the field name it was created with |
| TimestampExtractor.Extract | java/stream_processors/join_to_latest/src/main/java/io/ninety/joiner/AvroTimestampExtractor.java:21-22 | the timestamp is the `long` held by a field of the configured name |
| TimestampExtractor.ExtractField | java/stream_processors/join_to_latest/src/main/java/io/ninety/joiner/AvroTimestampExtractor.java:20-22 | in a record with distinct field names, every field of the configured name holds the timestamp |
| TimestampExtractor.ExtractRecord | java/stream_processors/join_to_latest/src/main/java/io/ninety/joiner/AvroTimestampExtractor.java:19-23 | `extract(record, previousTimestamp)` is the timestamp of the record's non-null value |
| TimestampExtractor.ExtractAgrees | java/stream_processors/join_to_latest/src/main/java/io/ninety/joiner/AvroTimestampExtractor.java:21-22 | records that agree on the configured field have equal timestamps |
| TimestampExtractor.ExtractRecordIgnoresPrevious | java/stream_processors/join_to_latest/src/main/java/io/ninety/joiner/AvroTimestampExtractor.java:20-23 | neither the previous timestamp nor the broker's timestamp plays a part |
| LastAggregator.Create | java/stream_processors/join_to_latest/src/main/java/io/ninety/joiner/AvroLastAggregator.java:9-17 | the aggregator keeps the extractor it was created with |
| LastAggregator.Initialize | java/stream_processors/join_to_latest/src/main/java/io/ninety/joiner/AvroLastAggregator.java:19-23 | the initializer returns null |
| LastAggregator.Aggregate | java/stream_processors/join_to_latest/src/main/java/io/ninety/joiner/AvroLastAggregator.java:25-49 | with no aggregate, the result is the arriving value; otherwise it is one of the two, with the larger timestamp, and the arriving value on a tie |
| LastAggregator.AggregateIgnoresKey | java/stream_processors/join_to_latest/src/main/java/io/ninety/joiner/AvroLastAggregator.java:26-48 | the key plays no part |
| LastAggregator.AggregateIdempotent | java/stream_processors/join_to_latest/src/main/java/io/ninety/joiner/AvroLastAggregator.java:26-48 | applying the same value twice is the same as applying it once |
| LastAggregator.Fold | java/stream_processors/join_to_latest/src/main/java/io/ninety/joiner/AvroLastAggregator.java:20-48 | the aggregate of a run is null exactly for the empty run, and otherwise carries a timestamp |
| LastAggregator.FoldStep | java/stream_processors/join_to_latest/src/main/java/io/ninety/joiner/AvroLastAggregator.java:33-48 | one more arrival replaces the aggregate exactly when its timestamp is at least the aggregate's |
| LastAggregator.FoldLatest | java/stream_processors/join_to_latest/src/main/java/io/ninety/joiner/AvroLastAggregator.java:20-48 | aggregating a non-empty run yields the last record, in arrival order, of maximal timestamp |
| LastAggregator.LatestStep | java/stream_processors/join_to_latest/src/main/java/io/ninety/joiner/AvroLastAggregator.java:41-45 | the last of the maximal timestamps moves to a new arrival exactly when it is at least the previous choice |
| LastAggregator.StampsPrefix | java/stream_processors/join_to_latest/src/main/java/io/ninety/joiner/AvroLastAggregator.java:36-37 | every prefix of a stamped run is stamped, with the prefix of its timestamps |
| LastAggregator.FoldNewest | java/stream_processors/join_to_latest/src/main/java/io/ninety/joiner/AvroLastAggregator.java:41-45 | a record at least as new as every earlier one becomes the aggregate |
| LastReducer.Create | java/stream_processors/join_to_latest/src/main/java/io/ninety/joiner/AvroLastReducer.java:8-16 | the reducer keeps the extractor it was created with |
| LastReducer.Reduce | java/stream_processors/join_to_latest/src/main/java/io/ninety/joiner/AvroLastReducer.java:18-50 | a null `val` gives `agg`, a null `agg` gives `val`; with both present the result has the larger timestamp, `val` on a tie |
| LastReducer.ReduceAbsent | java/stream_processors/join_to_latest/src/main/java/io/ninety/joiner/AvroLastReducer.java:25-35 | the result is null exactly when both arguments are |
| LastReducer.ReduceCommutes | java/stream_processors/join_to_latest/src/main/java/io/ninety/joiner/AvroLastReducer.java:37-49 | with different timestamps, the order of the arguments does not matter |
| LastReducer.ReduceTieKeepsFirst | java/stream_processors/join_to_latest/src/main/java/io/ninety/joiner/AvroLastReducer.java:42-46 | on a tie the first argument wins, so the order matters there |
| LastReducer.ReduceAssociative | java/stream_processors/join_to_latest/src/main/java/io/ninety/joiner/AvroLastReducer.java:37-49 | on present records, both groupings of three reductions pick the same record |
| LastReducer.ReduceAgreesWithAggregate | java/stream_processors/join_to_latest/src/main/java/io/ninety/joiner/AvroLastReducer.java:25-49 | wherever the aggregator does not throw, the reducer returns what the aggregator returns |
| LatestUdaf.LatestCollector | java/udaf/latest/src/main/java/io/ninety/kafka/udaf/LatestUdaf.java:18-24 | the collector starts from null |
| LatestUdaf.CollectorSteps | java/udaf/latest/src/main/java/io/ninety/kafka/udaf/LatestUdaf.java:26-34 | `aggregate` returns the arriving value and `merge` the first aggregate, null or not |
| LatestUdaf.CreateLatestLong | java/udaf/latest/src/main/java/io/ninety/kafka/udaf/LatestUdaf.java:38-41 | the BIGINT factory is the generic collector |
| LatestUdaf.CreateLatestInt | java/udaf/latest/src/main/java/io/ninety/kafka/udaf/LatestUdaf.java:43-46 | the INTEGER factory is the generic collector |
| LatestUdaf.CreateLatestDouble | java/udaf/latest/src/main/java/io/ninety/kafka/udaf/LatestUdaf.java:48-51 | the DOUBLE factory is the generic collector |
| LatestUdaf.CreateLatestString | java/udaf/latest/src/main/java/io/ninety/kafka/udaf/LatestUdaf.java:53-56 | the STRING factory is the generic collector |
| LatestUdaf.CreateLatestBool | java/udaf/latest/src/main/java/io/ninety/kafka/udaf/LatestUdaf.java:58-61 | the BOOLEAN factory is the generic collector |
| LatestUdaf.FoldLast | java/udaf/latest/src/main/java/io/ninety/kafka/udaf/LatestUdaf.java:21-29 | the aggregate of a run is its last value, or null for an empty run |
| LatestUdaf.FoldForgets | java/udaf/latest/src/main/java/io/ninety/kafka/udaf/LatestUdaf.java:26-29 | the values before the last run play no part in the aggregate |
| LatestUdaf.MergeKeepsFirst | java/udaf/latest/src/main/java/io/ninety/kafka/udaf/LatestUdaf.java:31-34 | merging two aggregates keeps the first one's |
| LatestUdaf.FactoriesAgree | java/udaf/latest/src/main/java/io/ninety/kafka/udaf/LatestUdaf.java:38-61 | all five factories aggregate to the last value |
| KeyValueMapper.Create | java/stream_processors/join_to_latest/src/main/java/io/ninety/joiner/AvroKeyValueMapper.java:8-10 | the mapper keeps its extractor and field name |
| KeyValueMapper.SplitKey | java/stream_processors/join_to_latest/src/main/java/io/ninety/joiner/AvroKeyValueMapper.java:24 | a key read back is its text before the first `_`, the `_`, and the rest |
| KeyValueMapper.FirstIndex | java/stream_processors/join_to_latest/src/main/java/io/ninety/joiner/AvroKeyValueMapper.java:24 | the first occurrence of a character, or none when the text has none |
| KeyValueMapper.SplitJoined | java/stream_processors/join_to_latest/src/main/java/io/ninety/joiner/AvroKeyValueMapper.java:24 | splitting at the first `_` undoes the concatenation when the left part has no `_` |
| KeyValueMapper.NoUnderscoreInLong | java/stream_processors/join_to_latest/src/main/java/io/ninety/joiner/AvroKeyValueMapper.java:24 | the decimal text of a `long` holds no `_` |
| KeyValueMapper.GroupKey | java/stream_processors/join_to_latest/src/main/java/io/ninety/joiner/AvroKeyValueMapper.java:20-25 | the group key splits at its first `_` into the timestamp's decimal text and the text of the field's value |
| KeyValueMapper.GroupKeyInjective | java/stream_processors/join_to_latest/src/main/java/io/ninety/joiner/AvroKeyValueMapper.java:20-25 | two records get the same key exactly when their timestamps and field texts agree, whatever the incoming keys |
| KeyValueMapper.GroupKeyNull | java/stream_processors/join_to_latest/src/main/java/io/ninety/joiner/AvroKeyValueMapper.java:22-24 | a missing or null field is written `null` in the key |
| Scenarios.Sample | java/stream_processors/join_to_latest/src/test/java/io/ninety/JoinerTest.java:37 | records of the test schema hold their four values in field order |
| Scenarios.MergedNamesDistinct | java/stream_processors/join_to_latest/src/main/java/io/ninety/joiner/JoinerTopology.java:55-64 | the eight aliases of the topology's two tables are pairwise different |
| Scenarios.MergedNamesLegal | java/stream_processors/join_to_latest/src/main/java/io/ninety/joiner/JoinerTopology.java:55-64 | every alias of the topology's two tables is an Avro name |
| Scenarios.AliasLegal | java/stream_processors/join_to_latest/src/main/java/io/ninety/joiner/JoinerTopology.java:55-64 | each alias of the tables is a letter followed by letters, digits and `_` |
| Scenarios.SampleAliases | java/stream_processors/join_to_latest/src/main/java/io/ninety/joiner/JoinerTopology.java:55-64 | the left table sends the four sample fields to `*_1` and the right table to `*_2`, in field order |
| Scenarios.SampleRenamable | java/stream_processors/join_to_latest/src/main/java/io/ninety/joiner/JoinerTopology.java:55-64 | every sample field has a legal alias in both tables |
| Scenarios.SampleMerge | java/stream_processors/join_to_latest/src/main/java/io/ninety/joiner/JoinerTopology.java:90 | the joiner's schema for two sample records exists and holds the eight aliases in order |
| Scenarios.JoinSampleSchema | java/stream_processors/join_to_latest/src/main/java/io/ninety/joiner/JoinerTopology.java:90-92 | joining two records of the sample schema yields the merged schema holding the left values, then the right ones |
| Scenarios.SampleJoin | java/stream_processors/join_to_latest/src/main/java/io/ninety/joiner/JoinerTopology.java:90-92 | joining two sample records yields eight fields named by the aliases, holding the left record's four values, then the right record's four |
| Scenarios.SampleGroup | java/stream_processors/join_to_latest/src/main/java/io/ninety/joiner/JoinerTopology.java:95-96 | the topology's mapper keys a joined sample by the left timestamp, `_` and the left `key1` |
| Scenarios.SampleStamped | java/stream_processors/join_to_latest/src/main/java/io/ninety/joiner/JoinerTopology.java:76-77 | the `event_time` extractor reads each sample record's timestamp |
| Scenarios.SampleLatestWins | java/stream_processors/join_to_latest/src/main/java/io/ninety/joiner/AvroLastAggregator.java:26-48 | samples arriving at 100, 101 and 99 leave the one stamped 101 as the aggregate |

## Left out

- Logging: every `System.out.print*` call is left out.
- `loadFromFile`: it reads a file, and that I/O is not modelled.
- `System.getenv`: the environment is a parameter, a sequence of (name, value) pairs.
- Iteration orders: the orders in which `Properties.forEach` and `HashMap` iterate are parameters. The model fixes no particular order.
- `innerProps()`: it hands out the live `Properties` object. Aliasing that object is not modelled; reads go through `Property` and `ToMap`.
- Field accessors: `leftFields()`, `rightFields()` and the four duration accessors are plain reads of the class fields, so they are not separate members.
- Configuration.EnvName: `toLowerCase` is modelled for ASCII letters only, because the model has no Unicode case mapping, and a root or English default locale is assumed. Under a Turkish locale Java lower-cases `I` to `ı`, and under any locale `İ` (U+0130) becomes two characters, so there the property name is not as long as the rest of the variable's name.
- Configuration.EnvName: the prefix in `replaceFirst(envPrefix, "")` is treated as a literal, not as a regular expression. A prefix holding regex metacharacters behaves differently in Java.
- IsoDuration.Parse: models the designator form of `Duration.parse` as the JDK 11 and later reads it. Both `.` and `,` are accepted as the decimal mark, and the fraction takes the sign written on the seconds. The exception message is not modelled; every refusal is None.
- Avro field types, docs and defaults: they are opaque payloads. Checking that a value fits its field's schema, in `set` or `build`, is not modelled.
- Avro.Get: follows Avro 1.9 and earlier, where `get` of a name the schema lacks returns null. From Avro 1.10 on it throws `AvroRuntimeException`. The repository's build file is not part of this model, so the Avro version is assumed.
- FieldsValueJoiner.MappedFields: Avro's name rule is modelled for ASCII letters and digits only. `Character.isLetter` and `Character.isLetterOrDigit` also accept Unicode letters and digits beyond ASCII (Arabic-Indic or full-width digits, say), which the model refuses.
- TimestampExtractor.ExtractRecord: requires a non-null record value. The exception Java throws when `r.get` is called on the null value of a tombstone (a record whose value is null) is not modelled.
- Avro.ValueText: only the texts of null, strings, longs, ints and booleans are fixed. Other values carry their `toString` text as given.
- LatestUdaf.CreateLatestDouble: a Java `double` is kept as its 64 bits. The collector never inspects values, so this is enough.
- TimestampExtractor.Extract: requires the configured field to hold a `long`. The cast exception that Java throws for a missing, null or non-`long` field is not modelled.
- The one-argument `extract(GenericRecord)`: the aggregator, the reducer and the mapper call it, but `AvroTimestampExtractor.java` does not declare it. Its source is not part of this model. The model takes it to be the same field lookup as `extract(record, previousTimestamp)`.
- LastAggregator.Aggregate: requires both records to carry a timestamp once an aggregate exists, including a non-null `val`. The exceptions Java throws otherwise are not modelled.
- LastReducer.Reduce: requires timestamps on both records when both are present. The exceptions Java throws otherwise are not modelled.
- KeyValueMapper.GroupKey: requires the record to carry a timestamp. The exception Java throws otherwise is not modelled.
- Input records: in the joiner, records are immutable values, so "the inputs are unchanged" holds by construction; aliasing between records is not modelled.
- Concurrency: the lazy schema cache is not thread-safe in Java. The model is sequential.
- Runtime plumbing: the topology wiring, windows, serdes, state stores and the Kafka runtime are left out. So are `Joiner`, `JoinerStreamProcessor`, `KafkaTopic`, `TimestampTransformer`, `WindowedKeyValueMapper` and `App`.

