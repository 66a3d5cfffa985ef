/**
 * `java.time.Duration.parse` as the JDK reads the ISO 8601 designator form
 * `PnDTnHnMn.nS` (section 4.4.3.2 of ISO 8601:2004): the pattern
 * `([-+]?)P(?:([-+]?[0-9]+)D)?(T(?:([-+]?[0-9]+)H)?(?:([-+]?[0-9]+)M)?(?:([-+]?[0-9]+)(?:[.,]([0-9]{0,9}))?S)?)?`
 * matched case-insensitively against the whole text, followed by the
 * overflow-checked arithmetic that turns the captured groups into seconds
 * and nanoseconds. Every failure (no match, a bare `T`, no component, a
 * number or a sum outside the `long` range) is the parse exception, here None.
 */
module IsoDuration {

  import opened Wrappers
  import opened JavaText

  const NANOS_PER_SECOND: int := 1_000_000_000
  const SECONDS_PER_DAY: int := 86400
  const SECONDS_PER_HOUR: int := 3600
  const SECONDS_PER_MINUTE: int := 60

  /** A `java.time.Duration`: whole seconds (a `long`) and a nanosecond adjustment in [0, 10^9). */
  datatype Duration = Duration(seconds: int, nanos: int)

  predicate ValidDuration(d: Duration) {
    InLongRange(d.seconds) && 0 <= d.nanos < NANOS_PER_SECOND
  }

  /** The length of a duration in nanoseconds. */
  function TotalNanos(d: Duration): int {
    d.seconds * NANOS_PER_SECOND + d.nanos
  }

  /** `Math.addExact` on `long`s. */
  function AddExact(a: int, b: int): (r: Option<int>)
    ensures r.Some? <==> InLongRange(a + b)
    ensures r.Some? ==> r.value == a + b
  {
    if InLongRange(a + b) then Some(a + b) else None
  }

  /** `Math.multiplyExact` on `long`s. */
  function MultiplyExact(a: int, b: int): (r: Option<int>)
    ensures r.Some? <==> InLongRange(a * b)
    ensures r.Some? ==> r.value == a * b
  {
    if InLongRange(a * b) then Some(a * b) else None
  }

  /**
   * `Duration.ofSeconds(seconds, nanoAdjustment)`: whole seconds are carried
   * out of the adjustment with `floorDiv`/`floorMod`, and the carried sum
   * must stay a `long`.
   */
  function OfSeconds(seconds: int, nanoAdjustment: int): (r: Option<Duration>)
    ensures r.Some? ==> ValidDuration(r.value) && TotalNanos(r.value) == seconds * NANOS_PER_SECOND + nanoAdjustment
    ensures r.Some? <==> InLongRange(seconds + nanoAdjustment / NANOS_PER_SECOND)
  {
    match AddExact(seconds, nanoAdjustment / NANOS_PER_SECOND)
    case None => None
    case Some(s) => Some(Duration(s, nanoAdjustment % NANOS_PER_SECOND))
  }

  /** `BigInteger.divideAndRemainder`'s quotient: division rounding toward zero. */
  function TruncDiv(a: int, b: int): int
    requires b > 0
  {
    if a >= 0 then a / b else -((-a) / b)
  }

  /**
   * `Duration.negated()`, that is `multipliedBy(-1)`: the exact nanosecond
   * count is negated, split with a truncating division whose quotient must
   * fit 63 bits, and handed back to `ofSeconds`.
   */
  function Negated(d: Duration): (r: Option<Duration>)
    requires ValidDuration(d)
    ensures r.Some? ==> ValidDuration(r.value) && TotalNanos(r.value) == -TotalNanos(d)
  {
    var total := -TotalNanos(d);
    var q := TruncDiv(total, NANOS_PER_SECOND);
    if !InLongRange(q) then None
    else OfSeconds(q, total - q * NANOS_PER_SECOND)
  }

  /** Euclidean division by 10^9 recovers the quotient and remainder it was built from. */
  lemma DivNanos(k: int, r: int)
    requires 0 <= r < NANOS_PER_SECOND
    ensures (k * NANOS_PER_SECOND + r) / NANOS_PER_SECOND == k
    ensures (k * NANOS_PER_SECOND + r) % NANOS_PER_SECOND == r
  {
    var a := k * NANOS_PER_SECOND + r;
    var q, m := a / NANOS_PER_SECOND, a % NANOS_PER_SECOND;
    assert (k - q) * NANOS_PER_SECOND == m - r;
  }

  /** Negation fails only for the most negative duration, whose negation has no `long` seconds. */
  lemma NegatedFails(d: Duration)
    requires ValidDuration(d)
    ensures Negated(d).None? <==> d == Duration(LONG_MIN, 0)
  {
    var s, n := d.seconds, d.nanos;
    var total := -TotalNanos(d);
    var q := TruncDiv(total, NANOS_PER_SECOND);
    if n == 0 {
      if s <= 0 {
        DivNanos(-s, 0);
        assert total == (-s) * NANOS_PER_SECOND;
        assert q == -s;
      } else {
        DivNanos(s, 0);
        assert -total == s * NANOS_PER_SECOND;
        assert q == -s;
      }
      assert total - q * NANOS_PER_SECOND == 0;
    } else if s >= 0 {
      DivNanos(s, n);
      assert q == -s;
      assert total - q * NANOS_PER_SECOND == -n;
      DivNanos(-1, NANOS_PER_SECOND - n);
    } else {
      DivNanos(-s - 1, NANOS_PER_SECOND - n);
      assert total == (-s - 1) * NANOS_PER_SECOND + (NANOS_PER_SECOND - n);
      assert q == -s - 1;
      assert total - q * NANOS_PER_SECOND == NANOS_PER_SECOND - n;
      DivNanos(0, NANOS_PER_SECOND - n);
    }
  }

  /** A designator letter in either case (the pattern is case-insensitive). */
  predicate IsLetter(c: char, upper: char)
    requires 'A' <= upper <= 'Z'
  {
    c == upper || c == LowerChar(upper)
  }

  /** Length of the run of ASCII digits that starts at i. */
  function DigitRun(s: string, i: nat): (r: nat)
    requires i <= |s|
    ensures i + r <= |s|
    ensures forall k :: i <= k < i + r ==> IsDigit(s[k])
    ensures i + r == |s| || !IsDigit(s[i + r])
    decreases |s| - i
  {
    if i < |s| && IsDigit(s[i]) then 1 + DigitRun(s, i + 1) else 0
  }

  /** Where `[-+]?[0-9]+` matching at i ends (the digits are taken greedily), if it matches. */
  function NumberEnd(s: string, i: nat): (r: Option<nat>)
    requires i <= |s|
    ensures r.Some? ==> i < r.value <= |s| && SignedValue(s[i..r.value]).Some?
  {
    var j := if i < |s| && (s[i] == '-' || s[i] == '+') then i + 1 else i;
    var e := j + DigitRun(s, j);
    if e > j then
      var t := s[i..e];
      assert j == i + 1 ==> t[1..] == s[j..e];
      assert j == i ==> t == s[j..e];
      assert AllDigits(s[j..e]);
      Some(e)
    else None
  }

  /** An optional group `([-+]?[0-9]+)X` at i: the number's text when it is there, and where matching goes on. */
  function Designated(s: string, i: nat, letter: char): (r: (Option<string>, nat))
    requires i <= |s| && 'A' <= letter <= 'Z'
    ensures r.0.None? ==> r.1 == i
    ensures r.0.Some? ==> i < r.1 <= |s| && SignedValue(r.0.value).Some?
  {
    match NumberEnd(s, i)
    case Some(e) => if e < |s| && IsLetter(s[e], letter) then (Some(s[i..e]), e + 1) else (None, i)
    case None => (None, i)
  }

  /** The optional seconds group `([-+]?[0-9]+)(?:[.,]([0-9]{0,9}))?S` at i. */
  function SecondsGroup(s: string, i: nat): (r: (Option<string>, Option<string>, nat))
    requires i <= |s|
    ensures r.0.None? ==> r.1.None? && r.2 == i
    ensures r.0.Some? ==> i < r.2 <= |s| && SignedValue(r.0.value).Some?
    ensures r.1.Some? ==> |r.1.value| <= 9 && AllDigits(r.1.value)
  {
    match NumberEnd(s, i)
    case None => (None, None, i)
    case Some(e) =>
      if e < |s| && (s[e] == '.' || s[e] == ',') then
        var f := e + 1 + DigitRun(s, e + 1);
        if f - (e + 1) <= 9 && f < |s| && IsLetter(s[f], 'S') then
          assert AllDigits(s[e + 1..f]);
          (Some(s[i..e]), Some(s[e + 1..f]), f + 1)
        else (None, None, i)
      else if e < |s| && IsLetter(s[e], 'S') then (Some(s[i..e]), None, e + 1)
      else (None, None, i)
  }

  /** The groups the pattern captures: the leading sign, each component's number, the time part, the fraction. */
  datatype Groups = Groups(sign: string, days: Option<string>, time: Option<string>, hours: Option<string>,
                           minutes: Option<string>, seconds: Option<string>, fraction: Option<string>)

  predicate WellFormedGroups(g: Groups) {
    && (g.days.Some? ==> SignedValue(g.days.value).Some?)
    && (g.hours.Some? ==> SignedValue(g.hours.value).Some?)
    && (g.minutes.Some? ==> SignedValue(g.minutes.value).Some?)
    && (g.seconds.Some? ==> SignedValue(g.seconds.value).Some?)
    && (g.fraction.Some? ==> |g.fraction.value| <= 9 && AllDigits(g.fraction.value))
  }

  /** `Matcher.matches()` of the pattern against the whole text, with its groups. */
  function Match(s: string): (r: Option<Groups>)
    ensures r.Some? ==> WellFormedGroups(r.value)
  {
    var i0 := if |s| > 0 && (s[0] == '-' || s[0] == '+') then 1 else 0;
    if i0 < |s| && IsLetter(s[i0], 'P') then MatchAfterP(s, i0) else None
  }

  /** The rest of the match once the sign (i0 characters) and `P` are read. */
  function MatchAfterP(s: string, i0: nat): (r: Option<Groups>)
    requires i0 < |s|
    ensures r.Some? ==> WellFormedGroups(r.value)
  {
    var days := Designated(s, i0 + 1, 'D');
    if days.1 == |s| then Some(Groups(s[..i0], days.0, None, None, None, None, None))
    else if IsLetter(s[days.1], 'T') then MatchAfterT(s, i0, days.0, days.1)
    else None
  }

  /** The rest of the match once the time designator at i1 is read. */
  function MatchAfterT(s: string, i0: nat, days: Option<string>, i1: nat): (r: Option<Groups>)
    requires i0 <= i1 < |s|
    requires days.Some? ==> SignedValue(days.value).Some?
    ensures r.Some? ==> WellFormedGroups(r.value)
  {
    match TimePart(s, i1 + 1)
    case None => None
    case Some(t) => Some(Groups(s[..i0], days, Some(s[i1..]), t.hours, t.minutes, t.seconds, t.fraction))
  }

  /** The groups after the time designator `T`. */
  datatype TimeGroups = TimeGroups(hours: Option<string>, minutes: Option<string>, seconds: Option<string>, fraction: Option<string>)

  /** The optional hours, minutes and seconds groups from i, which must reach the end of the text. */
  function TimePart(s: string, i: nat): (r: Option<TimeGroups>)
    requires i <= |s|
    ensures r.Some? ==>
      && (r.value.hours.Some? ==> SignedValue(r.value.hours.value).Some?)
      && (r.value.minutes.Some? ==> SignedValue(r.value.minutes.value).Some?)
      && (r.value.seconds.Some? ==> SignedValue(r.value.seconds.value).Some?)
      && (r.value.fraction.Some? ==> |r.value.fraction.value| <= 9 && AllDigits(r.value.fraction.value))
  {
    var (hours, i2) := Designated(s, i, 'H');
    var (minutes, i3) := Designated(s, i2, 'M');
    var (secs, fraction, i4) := SecondsGroup(s, i3);
    if i4 == |s| then Some(TimeGroups(hours, minutes, secs, fraction)) else None
  }

  /** `parseNumber`: a missing group is 0; otherwise `Long.parseLong` and then `multiplyExact`. */
  function ParseNumber(t: Option<string>, multiplier: int): (r: Option<int>)
    requires t.Some? ==> SignedValue(t.value).Some?
    ensures r.Some? ==> InLongRange(r.value)
    ensures t.None? ==> r == Some(0)
  {
    match t
    case None => Some(0)
    case Some(text) =>
      var v := SignedValue(text).value;
      if !InLongRange(v) then None else MultiplyExact(v, multiplier)
  }

  function Pow10(n: nat): (r: nat)
    ensures r > 0
  {
    if n == 0 then 1 else 10 * Pow10(n - 1)
  }

  /** `parseFraction`: the digits padded on the right to nine places, with the sign of the seconds. */
  function ParseFraction(f: Option<string>, sign: int): int
    requires f.Some? ==> AllDigits(f.value) && |f.value| <= 9
  {
    if f.None? || f.value == "" then 0
    else DigitsValue(f.value) * Pow10(9 - |f.value|) * sign
  }

  /** `create(negate, days, hours, minutes, seconds, nanos)`: the exact sums, `ofSeconds`, then the optional negation. */
  function Create(negate: bool, days: int, hours: int, minutes: int, seconds: int, nanos: int): (r: Option<Duration>)
    ensures r.Some? ==> ValidDuration(r.value)
    ensures r.Some? ==>
      TotalNanos(r.value) == (if negate then -1 else 1) * ((days + hours + minutes + seconds) * NANOS_PER_SECOND + nanos)
  {
    match AddExact(minutes, seconds)
    case None => None
    case Some(s1) =>
      match AddExact(hours, s1)
      case None => None
      case Some(s2) =>
        match AddExact(days, s2)
        case None => None
        case Some(total) =>
          match OfSeconds(total, nanos)
          case None => None
          case Some(d) => if negate then Negated(d) else Some(d)
  }

  /** The arithmetic half of `Duration.parse`, once the pattern has matched. */
  function Evaluate(g: Groups): (r: Option<Duration>)
    requires WellFormedGroups(g)
    ensures r.Some? ==> ValidDuration(r.value)
  {
    match (ParseNumber(g.days, SECONDS_PER_DAY), ParseNumber(g.hours, SECONDS_PER_HOUR),
           ParseNumber(g.minutes, SECONDS_PER_MINUTE), ParseNumber(g.seconds, 1))
    case (Some(d), Some(h), Some(m), Some(s)) =>
      var negativeSecs := g.seconds.Some? && g.seconds.value[0] == '-';
      Create(g.sign == "-", d, h, m, s, ParseFraction(g.fraction, if negativeSecs then -1 else 1))
    case _ => None
  }

  /**
   * `Duration.parse(text)`. A time part that is exactly the letter `T` is
   * refused (the JDK compares it with upper-case `T` only), and so is a
   * text with no component at all.
   */
  function Parse(text: string): (r: Option<Duration>)
    ensures r.Some? ==> ValidDuration(r.value)
    ensures r.Some? ==> Match(text).Some?
  {
    match Match(text)
    case None => None
    case Some(g) =>
      if g.time == Some("T") then None
      else if g.days.None? && g.hours.None? && g.minutes.None? && g.seconds.None? then None
      else Evaluate(g)
  }

  /** The number a captured group denotes, 0 when the group is absent. */
  function GroupValue(t: Option<string>): int
    requires t.Some? ==> SignedValue(t.value).Some?
  {
    if t.None? then 0 else SignedValue(t.value).value
  }

  /**
   * What the groups mean, in exact arithmetic: days, hours, minutes and
   * seconds added up, the fraction taking the sign written on the seconds,
   * and the whole negated by a leading `-`.
   */
  function MeaningNanos(g: Groups): int
    requires WellFormedGroups(g)
  {
    var secs := GroupValue(g.days) * SECONDS_PER_DAY + GroupValue(g.hours) * SECONDS_PER_HOUR
      + GroupValue(g.minutes) * SECONDS_PER_MINUTE + GroupValue(g.seconds);
    var fraction := if g.fraction.None? || g.fraction.value == "" then 0
      else DigitsValue(g.fraction.value) * Pow10(9 - |g.fraction.value|);
    var signedFraction := if g.seconds.Some? && g.seconds.value[0] == '-' then -fraction else fraction;
    var v := secs * NANOS_PER_SECOND + signedFraction;
    if g.sign == "-" then -v else v
  }

  lemma ParseNumberValue(t: Option<string>, multiplier: int)
    requires t.Some? ==> SignedValue(t.value).Some?
    requires ParseNumber(t, multiplier).Some?
    ensures ParseNumber(t, multiplier).value == GroupValue(t) * multiplier
  {
  }

  lemma EvaluateExact(g: Groups)
    requires WellFormedGroups(g) && Evaluate(g).Some?
    ensures TotalNanos(Evaluate(g).value) == MeaningNanos(g)
  {
    ParseNumberValue(g.days, SECONDS_PER_DAY);
    ParseNumberValue(g.hours, SECONDS_PER_HOUR);
    ParseNumberValue(g.minutes, SECONDS_PER_MINUTE);
    ParseNumberValue(g.seconds, 1);
  }

  /** Whatever `Duration.parse` returns is exactly the duration the text denotes: the range checks never round. */
  lemma ParseExact(text: string)
    requires Parse(text).Some?
    ensures ValidDuration(Parse(text).value)
    ensures TotalNanos(Parse(text).value) == MeaningNanos(Match(text).value)
  {
    EvaluateExact(Match(text).value);
  }


  lemma {:induction false} DigitRunIs(s: string, i: nat, n: nat)
    requires i + n <= |s|
    requires forall k :: i <= k < i + n ==> IsDigit(s[k])
    requires i + n == |s| || !IsDigit(s[i + n])
    ensures DigitRun(s, i) == n
    decreases n
  {
    if n > 0 {
      DigitRunIs(s, i + 1, n - 1);
    }
  }

  /** A signed decimal written in s[i..e] and followed by a non-digit is matched by `[-+]?[0-9]+` exactly. */
  lemma NumberEndAt(s: string, i: nat, e: nat)
    requires i < e < |s| && SignedValue(s[i..e]).Some? && !IsDigit(s[e])
    ensures NumberEnd(s, i) == Some(e)
  {
    var t := s[i..e];
    if t[0] == '-' || t[0] == '+' {
      forall k | i + 1 <= k < e ensures IsDigit(s[k]) {
        assert s[k] == t[1..][k - i - 1];
      }
      DigitRunIs(s, i + 1, e - i - 1);
    } else {
      forall k | i <= k < e ensures IsDigit(s[k]) {
        assert s[k] == t[k - i];
      }
      DigitRunIs(s, i, e - i);
    }
  }

  /** A component `nX` written in s[i..e+1] is captured with its number text. */
  lemma DesignatedAt(s: string, i: nat, e: nat, letter: char)
    requires 'A' <= letter <= 'Z'
    requires i < e < |s| && SignedValue(s[i..e]).Some? && IsLetter(s[e], letter)
    ensures Designated(s, i, letter) == (Some(s[i..e]), e + 1)
  {
    NumberEndAt(s, i, e);
  }

  /** A seconds component `nS` without a fraction, ending the text. */
  lemma SecondsAt(s: string, i: nat, e: nat)
    requires i < e && e + 1 == |s| && SignedValue(s[i..e]).Some? && s[e] == 'S'
    ensures SecondsGroup(s, i) == (Some(s[i..e]), None, |s|)
  {
    NumberEndAt(s, i, e);
  }

  /** TimePart from its three steps. */
  lemma TimePartOf(s: string, i: nat, hours: Option<string>, i2: nat, minutes: Option<string>, i3: nat,
                   seconds: Option<string>, fraction: Option<string>)
    requires i <= i2 <= i3 <= |s|
    requires Designated(s, i, 'H') == (hours, i2)
    requires Designated(s, i2, 'M') == (minutes, i3)
    requires SecondsGroup(s, i3) == (seconds, fraction, |s|)
    ensures TimePart(s, i) == Some(TimeGroups(hours, minutes, seconds, fraction))
  {
  }

  /** The time groups of `TnHnMnS` ending the text, with `H` at h, `M` at m and `S` at the end. */
  lemma TimePartAt(s: string, i: nat, h: nat, m: nat)
    requires i < h < m && m + 1 < |s| - 1
    requires s[h] == 'H' && s[m] == 'M' && s[|s| - 1] == 'S'
    requires SignedValue(s[i..h]).Some? && SignedValue(s[h + 1..m]).Some? && SignedValue(s[m + 1..|s| - 1]).Some?
    ensures TimePart(s, i) == Some(TimeGroups(Some(s[i..h]), Some(s[h + 1..m]), Some(s[m + 1..|s| - 1]), None))
  {
    DesignatedAt(s, i, h, 'H');
    DesignatedAt(s, h + 1, m, 'M');
    SecondsAt(s, m + 1, |s| - 1);
    TimePartOf(s, i, Some(s[i..h]), h + 1, Some(s[h + 1..m]), m + 1, Some(s[m + 1..|s| - 1]), None);
  }

  /** The text `[-]PnDTnHnMnS` with the given number texts. */
  function ComponentsText(sign: string, days: string, hours: string, minutes: string, seconds: string): string {
    sign + "P" + days + "D" + TimeText(hours, minutes, seconds)
  }

  /** The time part `TnHnMnS`. */
  function TimeText(hours: string, minutes: string, seconds: string): string {
    "T" + hours + "H" + minutes + "M" + seconds + "S"
  }

  /** Where each piece of `TnHnMnS` sits. */
  lemma TimeTextLayout(hours: string, minutes: string, seconds: string)
    ensures var u := TimeText(hours, minutes, seconds);
      var h := 1 + |hours|;
      var m := h + 1 + |minutes|;
      && |u| == m + 2 + |seconds|
      && u[0] == 'T' && u[1..h] == hours && u[h] == 'H'
      && u[h + 1..m] == minutes && u[m] == 'M'
      && u[m + 1..|u| - 1] == seconds && u[|u| - 1] == 'S'
  {
    var u := TimeText(hours, minutes, seconds);
    var h := 1 + |hours|;
    var m := h + 1 + |minutes|;
    var a := "T" + hours;
    var b := a + "H" + minutes;
    assert u == b + "M" + seconds + "S";
    assert u[..|a|] == a && a[1..] == hours;
    assert u[1..h] == a[1..];
    assert u[..|b|] == b && b[h + 1..] == minutes;
    assert u[h + 1..m] == b[h + 1..];
  }

  /** Where each piece of `[-]PnDTnHnMnS` sits. */
  lemma ComponentsTextLayout(sign: string, days: string, hours: string, minutes: string, seconds: string)
    ensures var s := ComponentsText(sign, days, hours, minutes, seconds);
      var d := |sign| + 1 + |days|;
      && d + 1 < |s|
      && s[..|sign|] == sign && s[|sign|] == 'P'
      && s[|sign| + 1..d] == days && s[d] == 'D'
      && s[d + 1..] == TimeText(hours, minutes, seconds)
  {
    var s := ComponentsText(sign, days, hours, minutes, seconds);
    var d := |sign| + 1 + |days|;
    var a := sign + "P" + days;
    assert s == a + "D" + TimeText(hours, minutes, seconds);
    assert s[..|a|] == a && a[|sign| + 1..] == days;
    assert s[|sign| + 1..d] == a[|sign| + 1..];
  }

  /** Positions in a suffix are positions in the text, shifted. */
  lemma SuffixSlice(s: string, k: nat, x: nat, y: nat)
    requires k <= |s| && x <= y <= |s| - k
    ensures s[k..][x..y] == s[k + x..k + y]
  {
  }

  /** Match from its steps: the sign, `P`, the days group ending at i1, `T`, and the time groups. */
  lemma MatchOf(s: string, i0: nat, days: Option<string>, i1: nat, t: TimeGroups)
    requires i0 < |s| && IsLetter(s[i0], 'P')
    requires i0 == (if |s| > 0 && (s[0] == '-' || s[0] == '+') then 1 else 0)
    requires Designated(s, i0 + 1, 'D') == (days, i1)
    requires i1 < |s| && IsLetter(s[i1], 'T')
    requires TimePart(s, i1 + 1) == Some(t)
    ensures Match(s) == Some(Groups(s[..i0], days, Some(s[i1..]), t.hours, t.minutes, t.seconds, t.fraction))
  {
    assert Match(s) == MatchAfterP(s, i0);
    assert MatchAfterP(s, i0) == MatchAfterT(s, i0, days, i1);
  }

  /** Where each piece of `[-]PnDTnHnMnS` sits, counted from the start of the whole text. */
  lemma ComponentsLayout(sign: string, days: string, hours: string, minutes: string, seconds: string)
    ensures var s := ComponentsText(sign, days, hours, minutes, seconds);
      var d := |sign| + 1 + |days|;
      var h := d + 2 + |hours|;
      var m := h + 1 + |minutes|;
      && m + 1 < |s| && s[..|sign|] == sign && s[|sign|] == 'P'
      && s[|sign| + 1..d] == days && s[d] == 'D'
      && s[d + 1..] == TimeText(hours, minutes, seconds) && s[d + 1] == 'T'
      && s[d + 2..h] == hours && s[h] == 'H'
      && s[h + 1..m] == minutes && s[m] == 'M'
      && s[m + 1..|s| - 1] == seconds && s[|s| - 1] == 'S'
  {
    var s := ComponentsText(sign, days, hours, minutes, seconds);
    var u := TimeText(hours, minutes, seconds);
    ComponentsTextLayout(sign, days, hours, minutes, seconds);
    TimeTextLayout(hours, minutes, seconds);
    var k := |sign| + 2 + |days|;
    var h := 1 + |hours|;
    var m := h + 1 + |minutes|;
    SuffixSlice(s, k, 1, h);
    SuffixSlice(s, k, h + 1, m);
    SuffixSlice(s, k, m + 1, |u| - 1);
  }

  /** The pattern over a text with `P` at i0, the days text ending at d, `T`, the hours text ending at h, the minutes text ending at m and the seconds text up to the final `S`. */
  lemma MatchAt(s: string, i0: nat, d: nat, h: nat, m: nat, days: string, hours: string, minutes: string, seconds: string)
    requires i0 == (if |s| > 0 && (s[0] == '-' || s[0] == '+') then 1 else 0)
    requires i0 + 1 < d && d + 2 < h < m && m + 1 < |s| - 1
    requires s[i0] == 'P' && s[d] == 'D' && s[d + 1] == 'T' && s[h] == 'H' && s[m] == 'M' && s[|s| - 1] == 'S'
    requires s[i0 + 1..d] == days && s[d + 2..h] == hours && s[h + 1..m] == minutes && s[m + 1..|s| - 1] == seconds
    requires SignedValue(days).Some? && SignedValue(hours).Some? && SignedValue(minutes).Some? && SignedValue(seconds).Some?
    ensures Match(s) == Some(Groups(s[..i0], Some(days), Some(s[d + 1..]), Some(hours), Some(minutes), Some(seconds), None))
  {
    DesignatedAt(s, i0 + 1, d, 'D');
    TimePartAt(s, d + 2, h, m);
    MatchOf(s, i0, Some(days), d + 1, TimeGroups(Some(hours), Some(minutes), Some(seconds), None));
  }

  /** The pattern captures each written component of `[-]PnDTnHnMnS`. */
  lemma MatchComponents(sign: string, days: string, hours: string, minutes: string, seconds: string)
    requires sign == "" || sign == "-" || sign == "+"
    requires SignedValue(days).Some? && SignedValue(hours).Some? && SignedValue(minutes).Some? && SignedValue(seconds).Some?
    ensures Match(ComponentsText(sign, days, hours, minutes, seconds)) ==
      Some(Groups(sign, Some(days), Some(TimeText(hours, minutes, seconds)), Some(hours), Some(minutes), Some(seconds), None))
  {
    ComponentsLayout(sign, days, hours, minutes, seconds);
    var s := ComponentsText(sign, days, hours, minutes, seconds);
    var d := |sign| + 1 + |days|;
    assert s[0] == (if sign == "" then 'P' else sign[0]);
    MatchAt(s, |sign|, d, d + 2 + |hours|, d + 2 + |hours| + 1 + |minutes|, days, hours, minutes, seconds);
  }

  /** A duration written as `[-]PnDTnHnMnS`, every component by `Long.toString`. */
  function DurationText(negative: bool, days: int, hours: int, minutes: int, seconds: int): string {
    ComponentsText(if negative then "-" else "", LongText(days), LongText(hours), LongText(minutes), LongText(seconds))
  }

  /** Every component within a quarter of the `long` range, once scaled to seconds. */
  predicate QuarterRange(days: int, hours: int, minutes: int, seconds: int) {
    && -(LONG_MAX / 4) <= days * SECONDS_PER_DAY <= LONG_MAX / 4
    && -(LONG_MAX / 4) <= hours * SECONDS_PER_HOUR <= LONG_MAX / 4
    && -(LONG_MAX / 4) <= minutes * SECONDS_PER_MINUTE <= LONG_MAX / 4
    && -(LONG_MAX / 4) <= seconds <= LONG_MAX / 4
  }

  /** A valid duration is fixed by its total length in nanoseconds. */
  lemma DurationOfTotal(d: Duration, n: int)
    requires ValidDuration(d) && TotalNanos(d) == n
    ensures d == Duration(n / NANOS_PER_SECOND, n % NANOS_PER_SECOND)
  {
  }

  /** Groups whose parts each fit a quarter of the `long` range evaluate without overflow. */
  lemma EvaluateBounded(g: Groups)
    requires WellFormedGroups(g)
    requires QuarterRange(GroupValue(g.days), GroupValue(g.hours), GroupValue(g.minutes), GroupValue(g.seconds))
    ensures Evaluate(g).Some?
  {
    var d, h, m := GroupValue(g.days) * SECONDS_PER_DAY, GroupValue(g.hours) * SECONDS_PER_HOUR,
      GroupValue(g.minutes) * SECONDS_PER_MINUTE;
    var sec := GroupValue(g.seconds);
    assert ParseNumber(g.days, SECONDS_PER_DAY) == Some(d);
    assert ParseNumber(g.hours, SECONDS_PER_HOUR) == Some(h);
    assert ParseNumber(g.minutes, SECONDS_PER_MINUTE) == Some(m);
    assert ParseNumber(g.seconds, 1) == Some(sec);
    var negativeSecs := g.seconds.Some? && g.seconds.value[0] == '-';
    var nanos := ParseFraction(g.fraction, if negativeSecs then -1 else 1);
    FractionBound(g.fraction, if negativeSecs then -1 else 1);
    CreateBounded(g.sign == "-", d, h, m, sec, nanos);
  }

  /** A fraction of at most nine digits is less than a second. */
  lemma FractionBound(f: Option<string>, sign: int)
    requires f.Some? ==> AllDigits(f.value) && |f.value| <= 9
    requires sign == 1 || sign == -1
    ensures -NANOS_PER_SECOND < ParseFraction(f, sign) < NANOS_PER_SECOND
  {
    if f.Some? && f.value != "" {
      var n, p := DigitsValue(f.value), Pow10(9 - |f.value|);
      DigitsBound(f.value);
      Pow10Bound(9 - |f.value|, |f.value|);
      ScaledBelow(n, p, Pow10(|f.value|));
      var x := n * p;
      assert ParseFraction(f, sign) == x * sign;
      if sign == 1 {
        assert x * sign == x;
      } else {
        assert x * sign == -x;
      }
    }
  }

  /** A number below `q`, scaled by a positive `p`, stays below `q * p`. */
  lemma ScaledBelow(n: nat, p: nat, q: nat)
    requires n < q && p > 0
    ensures 0 <= n * p < p * q
  {
  }

  lemma {:induction false} DigitsBound(s: string)
    requires AllDigits(s)
    ensures DigitsValue(s) < Pow10(|s|)
  {
    if s != [] {
      DigitsBound(s[..|s| - 1]);
    }
  }

  lemma {:induction false} Pow10Bound(a: nat, b: nat)
    requires a + b == 9
    ensures Pow10(a) * Pow10(b) == NANOS_PER_SECOND
    decreases b
  {
    if b == 0 {
      assert Pow10(9) == NANOS_PER_SECOND;
    } else {
      Pow10Bound(a + 1, b - 1);
    }
  }

  /** Seconds within a quarter of the `long` range each, plus a fraction of a second, do not overflow. */
  lemma CreateBounded(negate: bool, d: int, h: int, m: int, sec: int, nanos: int)
    requires -(LONG_MAX / 4) <= d <= LONG_MAX / 4 && -(LONG_MAX / 4) <= h <= LONG_MAX / 4
    requires -(LONG_MAX / 4) <= m <= LONG_MAX / 4 && -(LONG_MAX / 4) <= sec <= LONG_MAX / 4
    requires -NANOS_PER_SECOND < nanos < NANOS_PER_SECOND
    ensures Create(negate, d, h, m, sec, nanos).Some?
  {
    var total := d + h + m + sec;
    assert AddExact(m, sec) == Some(m + sec);
    assert AddExact(h, m + sec) == Some(h + m + sec);
    assert AddExact(d, h + m + sec) == Some(total);
    var r := OfSeconds(total, nanos);
    assert r.Some?;
    NegatedFails(r.value);
    assert r.value.seconds == total + nanos / NANOS_PER_SECOND;
  }

  /** A text whose groups are matched, written with some component, parses to what the groups denote. */
  lemma ParseOf(s: string, g: Groups)
    requires Match(s) == Some(g) && g.time != Some("T")
    requires g.days.Some? || g.hours.Some? || g.minutes.Some? || g.seconds.Some?
    requires WellFormedGroups(g)
    requires QuarterRange(GroupValue(g.days), GroupValue(g.hours), GroupValue(g.minutes), GroupValue(g.seconds))
    ensures Parse(s) == Some(Duration(MeaningNanos(g) / NANOS_PER_SECOND, MeaningNanos(g) % NANOS_PER_SECOND))
  {
    EvaluateBounded(g);
    ParseExact(s);
    DurationOfTotal(Parse(s).value, MeaningNanos(g));
  }

  /** `[-]PnDTnHnMnS` with any decimal number texts parses to the sum of its components. */
  lemma ParseComponents(negative: bool, dt: string, ht: string, mt: string, st: string,
                        days: int, hours: int, minutes: int, seconds: int)
    requires SignedValue(dt) == Some(days) && SignedValue(ht) == Some(hours)
    requires SignedValue(mt) == Some(minutes) && SignedValue(st) == Some(seconds)
    requires QuarterRange(days, hours, minutes, seconds)
    ensures var text := ComponentsText(if negative then "-" else "", dt, ht, mt, st);
      && Parse(text).Some?
      && TotalNanos(Parse(text).value) == (if negative then -1 else 1) *
        (days * SECONDS_PER_DAY + hours * SECONDS_PER_HOUR + minutes * SECONDS_PER_MINUTE + seconds) * NANOS_PER_SECOND
  {
    var sign := if negative then "-" else "";
    var text := ComponentsText(sign, dt, ht, mt, st);
    MatchComponents(sign, dt, ht, mt, st);
    var g := Groups(sign, Some(dt), Some(TimeText(ht, mt, st)), Some(ht), Some(mt), Some(st), None);
    assert |TimeText(ht, mt, st)| > 1;
    ParseOf(text, g);
  }

  /** Reading back `[-]PnDTnHnMnS` written by `Long.toString` gives the sum of the components. */
  lemma ParseDurationText(negative: bool, days: int, hours: int, minutes: int, seconds: int)
    requires QuarterRange(days, hours, minutes, seconds)
    ensures Parse(DurationText(negative, days, hours, minutes, seconds)).Some?
    ensures TotalNanos(Parse(DurationText(negative, days, hours, minutes, seconds)).value) ==
      (if negative then -1 else 1) *
      (days * SECONDS_PER_DAY + hours * SECONDS_PER_HOUR + minutes * SECONDS_PER_MINUTE + seconds) * NANOS_PER_SECOND
  {
    LongTextValue(days);
    LongTextValue(hours);
    LongTextValue(minutes);
    LongTextValue(seconds);
    ParseComponents(negative, LongText(days), LongText(hours), LongText(minutes), LongText(seconds), days, hours, minutes, seconds);
  }
}
