/**
 * The field-spec mini-language of JoinerProperties: `src AS alias, ...`.
 * `parseFields` trims the text, splits it with the regex `\s*,\s*`, splits
 * every clause with `(?i)\s+AS\s+`, and collects the pairs into a map.
 * Java's `String.split` is modelled exactly for these two patterns: the
 * leftmost match is taken, the search resumes where it ended, trailing
 * empty pieces are dropped, and a text with no match splits into itself.
 */
module FieldSpec {

  import opened Wrappers
  import opened JavaText

  /** The two separators: `\s*,\s*` between clauses and `(?i)\s+AS\s+` inside one. */
  datatype Separator = Comma | As

  /** Length of the run of `\s` characters that starts at i. */
  function SpaceRun(s: string, i: nat): (r: nat)
    requires i <= |s|
    ensures i + r <= |s|
    ensures forall k :: i <= k < i + r ==> IsSpace(s[k])
    ensures i + r == |s| || !IsSpace(s[i + r])
    decreases |s| - i
  {
    if i < |s| && IsSpace(s[i]) then 1 + SpaceRun(s, i + 1) else 0
  }

  predicate IsAsLetters(a: char, s: char) {
    (a == 'A' || a == 'a') && (s == 'S' || s == 's')
  }

  /** Where a match of the separator that starts exactly at i ends (greedy, as the regex engine finds it). */
  function MatchAt(sep: Separator, s: string, i: nat): (r: Option<nat>)
    requires i <= |s|
    ensures r.Some? ==> i < r.value <= |s|
  {
    var j := i + SpaceRun(s, i);
    match sep
    case Comma =>
      if j < |s| && s[j] == ',' then Some(j + 1 + SpaceRun(s, j + 1)) else None
    case As =>
      if i < j && j + 2 < |s| && IsAsLetters(s[j], s[j + 1]) && IsSpace(s[j + 2])
      then Some(j + 2 + SpaceRun(s, j + 2))
      else None
  }

  /** The leftmost match at or after i, as (start, end). */
  function FindFrom(sep: Separator, s: string, i: nat): (r: Option<(nat, nat)>)
    requires i <= |s|
    ensures r.Some? ==> i <= r.value.0 < r.value.1 <= |s|
    decreases |s| - i
  {
    if i == |s| then None
    else match MatchAt(sep, s, i)
      case Some(e) => Some((i, e))
      case None => FindFrom(sep, s, i + 1)
  }

  /** FindFrom finds a match, and no match starts before the one it finds. */
  lemma {:induction false} FindFromLeftmost(sep: Separator, s: string, i: nat)
    requires i <= |s|
    ensures FindFrom(sep, s, i).Some? ==>
      && MatchAt(sep, s, FindFrom(sep, s, i).value.0) == Some(FindFrom(sep, s, i).value.1)
      && forall k :: i <= k < FindFrom(sep, s, i).value.0 ==> MatchAt(sep, s, k).None?
    ensures FindFrom(sep, s, i).None? ==> forall k :: i <= k <= |s| ==> MatchAt(sep, s, k).None?
    decreases |s| - i
  {
    if i == |s| {
      assert MatchAt(sep, s, i).None?;
    } else if MatchAt(sep, s, i).None? {
      FindFromLeftmost(sep, s, i + 1);
      assert FindFrom(sep, s, i) == FindFrom(sep, s, i + 1);
    } else {
      assert FindFrom(sep, s, i) == Some((i, MatchAt(sep, s, i).value));
    }
  }

  /** The texts between successive matches, before trailing empty ones are dropped. */
  function Pieces(sep: Separator, s: string): (r: seq<string>)
    ensures |r| > 0
    decreases |s|
  {
    match FindFrom(sep, s, 0)
    case None => [s]
    case Some((a, e)) => [s[..a]] + Pieces(sep, s[e..])
  }

  function DropTrailingEmpty(ps: seq<string>): (r: seq<string>)
    ensures |r| <= |ps| && r == ps[..|r|]
    ensures |r| > 0 ==> r[|r| - 1] != ""
    ensures forall k :: |r| <= k < |ps| ==> ps[k] == ""
  {
    if |ps| > 0 && ps[|ps| - 1] == "" then DropTrailingEmpty(ps[..|ps| - 1]) else ps
  }

  /** `s.split(regex)`: the whole text when nothing matches, else the pieces without trailing empties. */
  function Split(sep: Separator, s: string): (r: seq<string>)
  {
    if FindFrom(sep, s, 0).None? then [s] else DropTrailingEmpty(Pieces(sep, s))
  }

  /** `split` returns the whole text when the separator never matches; otherwise the pieces between matches in order, minus the empty ones at the end. */
  lemma SplitShape(sep: Separator, s: string)
    ensures FindFrom(sep, s, 0).None? <==> |Pieces(sep, s)| == 1
    ensures FindFrom(sep, s, 0).None? ==> Split(sep, s) == [s]
    ensures FindFrom(sep, s, 0).Some? ==>
      && |Split(sep, s)| <= |Pieces(sep, s)|
      && Split(sep, s) == Pieces(sep, s)[..|Split(sep, s)|]
      && (|Split(sep, s)| > 0 ==> Split(sep, s)[|Split(sep, s)| - 1] != "")
      && forall k :: |Split(sep, s)| <= k < |Pieces(sep, s)| ==> Pieces(sep, s)[k] == ""
  {
    match FindFrom(sep, s, 0)
    case None =>
    case Some((a, e)) =>
      assert |Pieces(sep, s)| == 1 + |Pieces(sep, s[e..])|;
  }

  /** The clauses of a field spec: the trimmed text split at commas. */
  function Clauses(fields: string): seq<string> {
    Split(Comma, Trim(fields))
  }

  /** Why a field spec is refused. */
  datatype FieldSpecError =
    | BadFieldSpecifier(clause: string)  // a clause that is not `name AS alias`
    | DuplicateKey(key: string)          // `Collectors.toMap` met a source field twice

  /** `parseFields(fields)`: the map from source field to alias, or the first error in clause order. */
  function ParseFields(fields: string): (r: Result<map<string, string>, FieldSpecError>)
  {
    Collect(Clauses(fields), map[])
  }

  /** The stream pipeline of `parseFields`: split each clause in turn and add its pair to the map. */
  function Collect(clauses: seq<string>, acc: map<string, string>): (r: Result<map<string, string>, FieldSpecError>)
    ensures r.Ok? ==> acc.Keys <= r.value.Keys
    decreases |clauses|
  {
    if clauses == [] then Ok(acc)
    else
      var names := Split(As, clauses[0]);
      if |names| != 2 then Err(BadFieldSpecifier(clauses[0]))
      else if names[0] in acc then Err(DuplicateKey(names[0]))
      else Collect(clauses[1..], acc[names[0] := names[1]])
  }
}

/** What ParseFields promises, and the Java split facts it rests on. */
module FieldSpecProperties {

  import opened Wrappers
  import opened JavaText
  import opened FieldSpec

  predicate IsPair(c: string) {
    |Split(As, c)| == 2
  }

  predicate WellSplit(cs: seq<string>) {
    forall i :: 0 <= i < |cs| ==> IsPair(cs[i])
  }

  /** The source field a clause names (the text before `AS`). */
  function KeyOf(c: string): string
    requires IsPair(c)
  {
    Split(As, c)[0]
  }

  /** The alias a clause gives (the text after `AS`). */
  function AliasOf(c: string): string
    requires IsPair(c)
  {
    Split(As, c)[1]
  }

  /** The source fields the clauses name. */
  function KeySet(cs: seq<string>): (r: set<string>)
    requires WellSplit(cs)
    ensures forall i :: 0 <= i < |cs| ==> KeyOf(cs[i]) in r
  {
    if cs == [] then {} else {KeyOf(cs[0])} + KeySet(cs[1..])
  }

  lemma {:induction false} KeySetHas(cs: seq<string>, k: string)
    requires WellSplit(cs)
    ensures k in KeySet(cs) <==> exists i :: 0 <= i < |cs| && KeyOf(cs[i]) == k
    decreases |cs|
  {
    if cs != [] {
      KeySetHas(cs[1..], k);
      if k in KeySet(cs[1..]) {
        var i :| 0 <= i < |cs[1..]| && KeyOf(cs[1..][i]) == k;
        assert KeyOf(cs[i + 1]) == k;
      }
      if exists i :: 0 <= i < |cs| && KeyOf(cs[i]) == k {
        var i :| 0 <= i < |cs| && KeyOf(cs[i]) == k;
        if i > 0 { assert KeyOf(cs[1..][i - 1]) == k; }
      }
    }
  }

  /** No two clauses name one source field, and none names a field already collected. */
  predicate FreshKeys(cs: seq<string>, acc: map<string, string>)
    requires WellSplit(cs)
  {
    && (forall i, j :: 0 <= i < j < |cs| ==> KeyOf(cs[i]) != KeyOf(cs[j]))
    && (forall i :: 0 <= i < |cs| ==> KeyOf(cs[i]) !in acc)
  }

  lemma FreshKeysStep(cs: seq<string>, acc: map<string, string>)
    requires cs != [] && WellSplit(cs)
    ensures WellSplit(cs[1..])
    ensures FreshKeys(cs, acc) <==> KeyOf(cs[0]) !in acc && FreshKeys(cs[1..], acc[KeyOf(cs[0]) := AliasOf(cs[0])])
  {
    var rest := cs[1..];
    assert forall i :: 0 <= i < |rest| ==> rest[i] == cs[i + 1];
    if KeyOf(cs[0]) !in acc && FreshKeys(rest, acc[KeyOf(cs[0]) := AliasOf(cs[0])]) {
      forall i, j | 0 <= i < j < |cs| ensures KeyOf(cs[i]) != KeyOf(cs[j]) {
        assert cs[j] == rest[j - 1];
        if i > 0 { assert cs[i] == rest[i - 1]; }
      }
    }
  }

  /** Collecting succeeds exactly when every clause splits in two around `AS` and no key repeats. */
  lemma {:induction false} CollectOk(cs: seq<string>, acc: map<string, string>)
    ensures Collect(cs, acc).Ok? <==> WellSplit(cs) && FreshKeys(cs, acc)
    decreases |cs|
  {
    if cs != [] {
      if !IsPair(cs[0]) {
        assert !WellSplit(cs);
      } else {
        CollectOk(cs[1..], acc[KeyOf(cs[0]) := AliasOf(cs[0])]);
        if WellSplit(cs) { FreshKeysStep(cs, acc); }
        if WellSplit(cs[1..]) {
        assert WellSplit(cs) by {
          forall i | 0 <= i < |cs| ensures IsPair(cs[i]) {
            if i > 0 { assert cs[i] == cs[1..][i - 1]; }
          }
        }
        }
      }
    }
  }

  /** On success the map keeps what was collected and sends each clause's source field to its alias, and holds nothing else. */
  lemma {:induction false} CollectValue(cs: seq<string>, acc: map<string, string>)
    requires Collect(cs, acc).Ok?
    ensures WellSplit(cs)
    ensures Collect(cs, acc).value.Keys == acc.Keys + KeySet(cs)
    ensures forall k :: k in acc ==> Collect(cs, acc).value[k] == acc[k]
    ensures forall i :: 0 <= i < |cs| ==> Collect(cs, acc).value[KeyOf(cs[i])] == AliasOf(cs[i])
    decreases |cs|
  {
    CollectOk(cs, acc);
    if cs != [] {
      var rest := cs[1..];
      var acc' := acc[KeyOf(cs[0]) := AliasOf(cs[0])];
      FreshKeysStep(cs, acc);
      assert Collect(cs, acc) == Collect(rest, acc');
      CollectValue(rest, acc');
      var m := Collect(rest, acc').value;
      assert KeySet(cs) == {KeyOf(cs[0])} + KeySet(rest);
      assert m.Keys == acc.Keys + KeySet(cs);
      forall i | 0 < i < |cs| ensures m[KeyOf(cs[i])] == AliasOf(cs[i]) {
        assert cs[i] == rest[i - 1];
      }
    }
  }

  /** A field spec parses exactly when every clause is `name AS alias` and no source field repeats; the map then sends each clause's source field to its alias and holds nothing else. */
  lemma ParseFieldsOk(fields: string)
    ensures ParseFields(fields).Ok? <==> WellSplit(Clauses(fields)) && FreshKeys(Clauses(fields), map[])
    ensures ParseFields(fields).Ok? ==>
      && ParseFields(fields).value.Keys == KeySet(Clauses(fields))
      && (forall i :: 0 <= i < |Clauses(fields)| ==>
            ParseFields(fields).value[KeyOf(Clauses(fields)[i])] == AliasOf(Clauses(fields)[i]))
  {
    CollectOk(Clauses(fields), map[]);
    if ParseFields(fields).Ok? {
      CollectValue(Clauses(fields), map[]);
    }
  }

  /** A BadFieldSpecifier error names a clause of the spec that does not split into exactly two names. */
  lemma {:induction false} CollectBadClause(cs: seq<string>, acc: map<string, string>)
    requires Collect(cs, acc).Err? && Collect(cs, acc).error.BadFieldSpecifier?
    ensures Collect(cs, acc).error.clause in cs && !IsPair(Collect(cs, acc).error.clause)
    decreases |cs|
  {
    if IsPair(cs[0]) {
      CollectBadClause(cs[1..], acc[KeyOf(cs[0]) := AliasOf(cs[0])]);
    }
  }

  /** One step of Collect: the first clause either fails or extends the map. */
  lemma CollectStep(cs: seq<string>, acc: map<string, string>)
    requires cs != []
    ensures !IsPair(cs[0]) ==> Collect(cs, acc) == Err(BadFieldSpecifier(cs[0]))
    ensures IsPair(cs[0]) && KeyOf(cs[0]) in acc ==> Collect(cs, acc) == Err(DuplicateKey(KeyOf(cs[0])))
    ensures IsPair(cs[0]) && KeyOf(cs[0]) !in acc ==>
      Collect(cs, acc) == Collect(cs[1..], acc[KeyOf(cs[0]) := AliasOf(cs[0])])
  {
  }

  /** A DuplicateKey error names a source field given twice (or already collected). */
  lemma {:induction false} CollectDuplicate(cs: seq<string>, acc: map<string, string>, k: string) returns (i: nat, j: nat)
    requires Collect(cs, acc) == Err(DuplicateKey(k))
    ensures j < |cs| && IsPair(cs[j]) && KeyOf(cs[j]) == k
    ensures k in acc || (i < j && IsPair(cs[i]) && KeyOf(cs[i]) == k)
    decreases |cs|
  {
    DuplicateHead(cs, acc, k);
    var k0 := KeyOf(cs[0]);
    if k0 in acc {
      i, j := 0, 0;
    } else {
      var rest := cs[1..];
      var acc' := acc[k0 := AliasOf(cs[0])];
      var i', j' := CollectDuplicate(rest, acc', k);
      assert cs[j' + 1] == rest[j'];
      j := j' + 1;
      if k in acc {
        i := 0;
      } else if k == k0 {
        i := 0;
      } else {
        assert k !in acc';
        assert cs[i' + 1] == rest[i'];
        i := i' + 1;
      }
    }
  }

  /** The first clause of a collect that ends in DuplicateKey(k) is a pair, and either it or the rest holds k. */
  lemma DuplicateHead(cs: seq<string>, acc: map<string, string>, k: string)
    requires Collect(cs, acc) == Err(DuplicateKey(k))
    ensures cs != [] && IsPair(cs[0])
    ensures KeyOf(cs[0]) in acc ==> k == KeyOf(cs[0])
    ensures KeyOf(cs[0]) !in acc ==> Collect(cs[1..], acc[KeyOf(cs[0]) := AliasOf(cs[0])]) == Err(DuplicateKey(k))
  {
    CollectStep(cs, acc);
  }

  /** Every error of ParseFields points at the clause text that caused it. */
  lemma ParseFieldsErr(fields: string)
    requires ParseFields(fields).Err?
    ensures ParseFields(fields).error.BadFieldSpecifier? ==>
      ParseFields(fields).error.clause in Clauses(fields) && !IsPair(ParseFields(fields).error.clause)
    ensures ParseFields(fields).error.DuplicateKey? ==>
      exists i, j :: 0 <= i < j < |Clauses(fields)| && IsPair(Clauses(fields)[i]) && IsPair(Clauses(fields)[j]) &&
        KeyOf(Clauses(fields)[i]) == KeyOf(Clauses(fields)[j]) == ParseFields(fields).error.key
  {
    if ParseFields(fields).error.BadFieldSpecifier? {
      CollectBadClause(Clauses(fields), map[]);
    } else {
      var i, j := CollectDuplicate(Clauses(fields), map[], ParseFields(fields).error.key);
    }
  }
}

/** Writing a mapping in the field-spec language and parsing it back gives the mapping. */
module FieldSpecRoundTrip {

  import opened Wrappers
  import opened JavaText
  import opened FieldSpec
  import opened FieldSpecProperties

  /** A name the language can carry: non-empty, no comma, no whitespace or control character. */
  predicate IsName(s: string) {
    |s| > 0 && forall i :: 0 <= i < |s| ==> !IsTrimmable(s[i]) && s[i] != ','
  }

  predicate AllTrimmable(s: string) {
    forall i :: 0 <= i < |s| ==> IsTrimmable(s[i])
  }

  /** The whitespace a writer may choose: around the whole text, around each comma, around each `AS`, and the spelling of `AS`. */
  datatype Layout = Layout(lead: string, beforeComma: string, afterComma: string,
                           beforeAs: string, keyword: string, afterAs: string, trail: string)

  predicate ValidLayout(l: Layout) {
    && AllTrimmable(l.lead) && AllTrimmable(l.trail)
    && AllSpace(l.beforeComma) && AllSpace(l.afterComma)
    && AllSpace(l.beforeAs) && |l.beforeAs| > 0
    && AllSpace(l.afterAs) && |l.afterAs| > 0
    && |l.keyword| == 2 && IsAsLetters(l.keyword[0], l.keyword[1])
  }

  predicate NamePairs(pairs: seq<(string, string)>) {
    |pairs| > 0 && forall i :: 0 <= i < |pairs| ==> IsName(pairs[i].0) && IsName(pairs[i].1)
  }

  /** Pairs a map can be written from: names only, no source field twice. */
  predicate ValidPairs(pairs: seq<(string, string)>) {
    && NamePairs(pairs)
    && (forall i, j :: 0 <= i < j < |pairs| ==> pairs[i].0 != pairs[j].0)
  }

  function ClauseText(p: (string, string), l: Layout): string {
    p.0 + l.beforeAs + l.keyword + l.afterAs + p.1
  }

  function Body(pairs: seq<(string, string)>, l: Layout): string
    requires |pairs| > 0
  {
    if |pairs| == 1 then ClauseText(pairs[0], l)
    else ClauseText(pairs[0], l) + l.beforeComma + "," + l.afterComma + Body(pairs[1..], l)
  }

  /** A mapping written out as `src AS alias, ...` in the given layout. */
  function Format(pairs: seq<(string, string)>, l: Layout): string
    requires |pairs| > 0
  {
    l.lead + Body(pairs, l) + l.trail
  }

  function ClauseTexts(pairs: seq<(string, string)>, l: Layout): (r: seq<string>)
    ensures |r| == |pairs|
    ensures forall i :: 0 <= i < |pairs| ==> r[i] == ClauseText(pairs[i], l)
    decreases |pairs|
  {
    if pairs == [] then [] else [ClauseText(pairs[0], l)] + ClauseTexts(pairs[1..], l)
  }

  lemma {:induction false} SpaceRunIs(s: string, i: nat, n: nat)
    requires i + n <= |s|
    requires forall k :: i <= k < i + n ==> IsSpace(s[k])
    requires i + n == |s| || !IsSpace(s[i + n])
    ensures SpaceRun(s, i) == n
    decreases n
  {
    if n > 0 {
      SpaceRunIs(s, i + 1, n - 1);
    }
  }

  lemma {:induction false} FindFromIs(sep: Separator, s: string, i: nat, a: nat, e: nat)
    requires i <= a < |s|
    requires forall k :: i <= k < a ==> MatchAt(sep, s, k).None?
    requires MatchAt(sep, s, a) == Some(e)
    ensures FindFrom(sep, s, i) == Some((a, e))
    decreases a - i
  {
    if i < a {
      FindFromIs(sep, s, i + 1, a, e);
    }
  }

  lemma NoMatchNoFind(sep: Separator, s: string)
    requires forall k :: 0 <= k <= |s| ==> MatchAt(sep, s, k).None?
    ensures FindFrom(sep, s, 0).None?
  {
    FindFromLeftmost(sep, s, 0);
  }

  /** A run of spaces that starts inside a word ending in a visible character stays inside it. */
  lemma RunStaysInside(s: string, x: nat, w: nat)
    requires x < w <= |s| && !IsSpace(s[w - 1])
    ensures x + SpaceRun(s, x) < w
  {
  }

  /** Matching is unaffected by text placed in front: it moves by that text's length. */
  lemma {:induction false} SpaceRunShift(w: string, u: string, i: nat)
    requires i <= |u|
    ensures SpaceRun(w + u, |w| + i) == SpaceRun(u, i)
    decreases |u| - i
  {
    var s := w + u;
    if i < |u| {
      assert s[|w| + i] == u[i];
      SpaceRunShift(w, u, i + 1);
    }
  }

  lemma MatchShift(sep: Separator, w: string, u: string, i: nat)
    requires i <= |u|
    ensures MatchAt(sep, w + u, |w| + i) ==
      if MatchAt(sep, u, i).Some? then Some(|w| + MatchAt(sep, u, i).value) else None
  {
    SpaceRunShift(w, u, i);
    var j := i + SpaceRun(u, i);
    match sep
    case Comma => CommaShift(w, u, i, j);
    case As => AsShift(w, u, i, j);
  }

  lemma CommaShift(w: string, u: string, i: nat, j: nat)
    requires i <= |u| && j == i + SpaceRun(u, i) && SpaceRun(w + u, |w| + i) == SpaceRun(u, i)
    ensures MatchAt(Comma, w + u, |w| + i) ==
      if MatchAt(Comma, u, i).Some? then Some(|w| + MatchAt(Comma, u, i).value) else None
  {
    if j < |u| {
      SpaceRunShift(w, u, j + 1);
      assert (w + u)[|w| + j] == u[j];
    }
  }

  lemma AsShift(w: string, u: string, i: nat, j: nat)
    requires i <= |u| && j == i + SpaceRun(u, i) && SpaceRun(w + u, |w| + i) == SpaceRun(u, i)
    ensures MatchAt(As, w + u, |w| + i) ==
      if MatchAt(As, u, i).Some? then Some(|w| + MatchAt(As, u, i).value) else None
  {
    var s := w + u;
    if j + 2 < |u| {
      SpaceRunShift(w, u, j + 2);
      assert s[|w| + j] == u[j] && s[|w| + j + 1] == u[j + 1] && s[|w| + j + 2] == u[j + 2];
    }
  }

  lemma SpaceThenVisible(sp: string, t: string)
    requires AllSpace(sp) && (t == [] || !IsSpace(t[0]))
    ensures SpaceRun(sp + t, 0) == |sp|
  {
    var s := sp + t;
    if |sp| < |s| { assert s[|sp|] == t[0]; }
    SpaceRunIs(s, 0, |sp|);
  }

  /** The text between a name and an alias, ` AS ` in any case and spacing, is one match that stops at the alias. */
  lemma AsMatch(l: Layout, t: string)
    requires ValidLayout(l) && |t| > 0 && !IsSpace(t[0])
    ensures MatchAt(As, AsText(l) + t, 0) == Some(|AsText(l)|)
  {
    var s := AsText(l) + t;
    var head := l.beforeAs + l.keyword;
    assert s == l.beforeAs + (l.keyword + l.afterAs + t);
    assert (l.keyword + l.afterAs + t)[0] == l.keyword[0];
    SpaceThenVisible(l.beforeAs, l.keyword + l.afterAs + t);
    var j := |l.beforeAs|;
    assert s[j] == l.keyword[0] && s[j + 1] == l.keyword[1];
    assert s == head + (l.afterAs + t);
    assert s[j + 2] == l.afterAs[0];
    assert (l.afterAs + t)[|l.afterAs|] == t[0];
    SpaceThenVisible(l.afterAs, t);
    SpaceRunShift(head, l.afterAs + t, 0);
  }

  /** The text between two clauses, `,` with spaces around it, is one match that stops at the next clause. */
  lemma CommaMatch(l: Layout, t: string)
    requires ValidLayout(l) && |t| > 0 && !IsSpace(t[0])
    ensures MatchAt(Comma, CommaText(l) + t, 0) == Some(|CommaText(l)|)
  {
    var s := CommaText(l) + t;
    assert s == l.beforeComma + ("," + l.afterComma + t);
    SpaceThenVisible(l.beforeComma, "," + l.afterComma + t);
    var head := l.beforeComma + ",";
    assert s == head + (l.afterComma + t);
    assert (l.afterComma + t)[|l.afterComma|] == t[0];
    SpaceThenVisible(l.afterComma, t);
    SpaceRunShift(head, l.afterComma + t, 0);
  }

  function AsText(l: Layout): string {
    l.beforeAs + l.keyword + l.afterAs
  }

  function CommaText(l: Layout): string {
    l.beforeComma + "," + l.afterComma
  }

  /** When the first match of a text `w + m + v` is exactly `m`, the pieces are w followed by the pieces of v. */
  lemma PiecesAround(sep: Separator, w: string, m: string, v: string)
    requires FindFrom(sep, w + m + v, 0) == Some((|w|, |w| + |m|))
    ensures Pieces(sep, w + m + v) == [w] + Pieces(sep, v)
  {
    var s := w + m + v;
    assert s[..|w|] == w;
    assert s[|w| + |m|..] == v;
  }

  /** The first match of `w + m + v` is m when m matches where w ends and no match starts inside w. */
  lemma FirstMatchIs(sep: Separator, w: string, m: string, v: string)
    requires forall x :: 0 <= x < |w| ==> MatchAt(sep, w + m + v, x).None?
    requires MatchAt(sep, m + v, 0) == Some(|m|)
    requires |w| < |w + m + v|
    ensures FindFrom(sep, w + m + v, 0) == Some((|w|, |w| + |m|))
  {
    assert w + m + v == w + (m + v);
    MatchShift(sep, w, m + v, 0);
    FindFromIs(sep, w + m + v, 0, |w|, |w| + |m|);
  }

  /** A name holds no match of the `AS` separator. */
  lemma NoAsInName(w: string, u: string)
    requires IsName(w)
    ensures forall x :: 0 <= x < |w| ==> MatchAt(As, w + u, x).None?
    ensures u == [] ==> FindFrom(As, w, 0).None?
  {
    forall x | 0 <= x < |w| ensures MatchAt(As, w + u, x).None? {
      assert (w + u)[x] == w[x];
    }
    if u == [] {
      assert w + u == w;
      NoMatchNoFind(As, w);
    }
  }

  /** A clause holds no match of the comma separator. */
  lemma NoCommaInClause(w: string, u: string)
    requires |w| > 0 && !IsSpace(w[|w| - 1]) && forall k :: 0 <= k < |w| ==> w[k] != ','
    ensures forall x :: 0 <= x < |w| ==> MatchAt(Comma, w + u, x).None?
    ensures FindFrom(Comma, w, 0).None?
  {
    var s := w + u;
    forall x | 0 <= x < |w| ensures MatchAt(Comma, s, x).None? {
      assert s[|w| - 1] == w[|w| - 1];
      RunStaysInside(s, x, |w|);
      assert s[x + SpaceRun(s, x)] == w[x + SpaceRun(s, x)];
    }
    NoMatchNoFind(Comma, w);
  }

  lemma ClauseFacts(p: (string, string), l: Layout)
    requires IsName(p.0) && IsName(p.1) && ValidLayout(l)
    ensures var c := ClauseText(p, l);
      && |c| > 0 && !IsTrimmable(c[0]) && !IsTrimmable(c[|c| - 1])
      && (forall k :: 0 <= k < |c| ==> c[k] != ',')
  {
    var c := ClauseText(p, l);
    assert c == p.0 + AsText(l) + p.1;
    forall k | 0 <= k < |c| ensures c[k] != ',' {
      if k < |p.0| {
        assert c[k] == p.0[k];
      } else if k >= |c| - |p.1| {
        assert c[k] == p.1[k - (|c| - |p.1|)];
      } else {
        assert c[k] == AsText(l)[k - |p.0|];
      }
    }
    assert c[|c| - 1] == p.1[|p.1| - 1];
  }

  /** When a text's only match is m between w and v, it splits into [w, v]. */
  lemma SplitAround(sep: Separator, w: string, m: string, v: string)
    requires FindFrom(sep, w + m + v, 0) == Some((|w|, |w| + |m|))
    requires FindFrom(sep, v, 0).None? && v != ""
    ensures Split(sep, w + m + v) == [w, v]
  {
    PiecesAround(sep, w, m, v);
    assert Pieces(sep, v) == [v];
  }

  lemma ClauseFirstMatch(p: (string, string), l: Layout)
    requires IsName(p.0) && |p.1| > 0 && !IsSpace(p.1[0]) && ValidLayout(l)
    ensures FindFrom(As, p.0 + AsText(l) + p.1, 0) == Some((|p.0|, |p.0| + |AsText(l)|))
  {
    var k, m, v := p.0, AsText(l), p.1;
    NoAsInName(k, m + v);
    assert k + (m + v) == k + m + v;
    AsMatch(l, v);
    FirstMatchIs(As, k, m, v);
  }

  /** `k AS v` splits at its `AS` into exactly [k, v], whatever the case of `AS` and the spaces around it. */
  lemma SplitClause(p: (string, string), l: Layout)
    requires IsName(p.0) && IsName(p.1) && ValidLayout(l)
    ensures Split(As, ClauseText(p, l)) == [p.0, p.1]
  {
    assert ClauseText(p, l) == p.0 + AsText(l) + p.1;
    ClauseFirstMatch(p, l);
    NoAsInName(p.1, []);
    SplitAround(As, p.0, AsText(l), p.1);
  }

  lemma BodyFirstMatch(c: string, l: Layout, r: string)
    requires ValidLayout(l) && |r| > 0 && !IsSpace(r[0])
    requires |c| > 0 && !IsSpace(c[|c| - 1]) && forall k :: 0 <= k < |c| ==> c[k] != ','
    ensures FindFrom(Comma, c + CommaText(l) + r, 0) == Some((|c|, |c| + |CommaText(l)|))
  {
    var m := CommaText(l);
    NoCommaInClause(c, m + r);
    assert c + (m + r) == c + m + r;
    CommaMatch(l, r);
    FirstMatchIs(Comma, c, m, r);
  }

  /** A written body starts and ends with a visible character. */
  lemma {:induction false} BodyEnds(pairs: seq<(string, string)>, l: Layout)
    requires |pairs| > 0 && ValidLayout(l)
    requires forall i :: 0 <= i < |pairs| ==> IsName(pairs[i].0) && IsName(pairs[i].1)
    ensures |Body(pairs, l)| > 0 && !IsTrimmable(Body(pairs, l)[0]) && !IsTrimmable(Body(pairs, l)[|Body(pairs, l)| - 1])
    decreases |pairs|
  {
    var c := ClauseText(pairs[0], l);
    ClauseFacts(pairs[0], l);
    if |pairs| > 1 {
      BodyEnds(pairs[1..], l);
      var m, r := CommaText(l), Body(pairs[1..], l);
      assert Body(pairs, l) == c + m + r;
      assert (c + m + r)[0] == c[0];
      assert (c + m + r)[|c + m + r| - 1] == r[|r| - 1];
    }
  }

  /** The text between the commas of a written mapping is its clauses. */
  lemma {:induction false} PiecesOfBody(pairs: seq<(string, string)>, l: Layout)
    requires |pairs| > 0 && ValidLayout(l)
    requires forall i :: 0 <= i < |pairs| ==> IsName(pairs[i].0) && IsName(pairs[i].1)
    ensures Pieces(Comma, Body(pairs, l)) == ClauseTexts(pairs, l)
    decreases |pairs|
  {
    var c := ClauseText(pairs[0], l);
    ClauseFacts(pairs[0], l);
    if |pairs| == 1 {
      NoCommaInClause(c, []);
      assert Pieces(Comma, c) == [c];
    } else {
      PiecesOfBody(pairs[1..], l);
      PiecesOfBodyStep(pairs, l);
    }
  }

  lemma PiecesOfBodyStep(pairs: seq<(string, string)>, l: Layout)
    requires |pairs| > 1 && ValidLayout(l)
    requires forall i :: 0 <= i < |pairs| ==> IsName(pairs[i].0) && IsName(pairs[i].1)
    ensures Pieces(Comma, Body(pairs, l)) == [ClauseText(pairs[0], l)] + Pieces(Comma, Body(pairs[1..], l))
    ensures FindFrom(Comma, Body(pairs, l), 0).Some?
  {
    var c := ClauseText(pairs[0], l);
    ClauseFacts(pairs[0], l);
    var rest := pairs[1..];
    BodyEnds(rest, l);
    var m, r := CommaText(l), Body(rest, l);
    assert Body(pairs, l) == c + m + r;
    BodyFirstMatch(c, l, r);
    PiecesAround(Comma, c, m, r);
  }

  /** The clauses of a written mapping are the clause texts, in order. */
  lemma ClausesOfFormat(pairs: seq<(string, string)>, l: Layout)
    requires NamePairs(pairs) && ValidLayout(l)
    ensures Clauses(Format(pairs, l)) == ClauseTexts(pairs, l)
  {
    var b := Body(pairs, l);
    PiecesOfBody(pairs, l);
    BodyEnds(pairs, l);
    TrimAround(l.lead, b, l.trail);
    var ps := ClauseTexts(pairs, l);
    if |pairs| > 1 {
      ClauseFacts(pairs[|pairs| - 1], l);
      assert ps[|ps| - 1] != "";
    }
  }

  /** Every clause of a written mapping splits into its pair. */
  lemma ClausePairsOfFormat(pairs: seq<(string, string)>, l: Layout)
    requires NamePairs(pairs) && ValidLayout(l)
    ensures |Clauses(Format(pairs, l))| == |pairs|
    ensures WellSplit(Clauses(Format(pairs, l)))
    ensures forall i :: 0 <= i < |pairs| ==>
      KeyOf(Clauses(Format(pairs, l))[i]) == pairs[i].0 && AliasOf(Clauses(Format(pairs, l))[i]) == pairs[i].1
  {
    ClausesOfFormat(pairs, l);
    ClauseTextsSplit(pairs, l);
  }

  lemma ClauseTextsSplit(pairs: seq<(string, string)>, l: Layout)
    requires NamePairs(pairs) && ValidLayout(l)
    ensures forall i :: 0 <= i < |pairs| ==> Split(As, ClauseTexts(pairs, l)[i]) == [pairs[i].0, pairs[i].1]
  {
    forall i | 0 <= i < |pairs| ensures Split(As, ClauseTexts(pairs, l)[i]) == [pairs[i].0, pairs[i].1] {
      SplitClause(pairs[i], l);
    }
  }

  /** Parsing a written mapping gives back exactly that mapping. */
  lemma ParseFormat(pairs: seq<(string, string)>, l: Layout)
    requires ValidPairs(pairs) && ValidLayout(l)
    ensures ParseFields(Format(pairs, l)).Ok?
    ensures ParseFields(Format(pairs, l)).value.Keys == (set i | 0 <= i < |pairs| :: pairs[i].0)
    ensures forall i :: 0 <= i < |pairs| ==> ParseFields(Format(pairs, l)).value[pairs[i].0] == pairs[i].1
  {
    var f := Format(pairs, l);
    ClausePairsOfFormat(pairs, l);
    var cs := Clauses(f);
    assert FreshKeys(cs, map[]);
    ParseFieldsOk(f);
    forall k ensures k in KeySet(cs) <==> k in (set i | 0 <= i < |pairs| :: pairs[i].0) {
      KeySetHas(cs, k);
    }
  }

  /** `trim` removes exactly the padding around a text whose ends are visible. */
  lemma TrimAround(lead: string, b: string, trail: string)
    requires AllTrimmable(lead) && AllTrimmable(trail)
    requires |b| > 0 && !IsTrimmable(b[0]) && !IsTrimmable(b[|b| - 1])
    ensures Trim(lead + b + trail) == b
  {
    assert lead + b + trail == lead + (b + trail);
    TrimStartPad(lead, b + trail);
    TrimEndPad(b, trail);
  }

  lemma {:induction false} TrimStartPad(lead: string, t: string)
    requires AllTrimmable(lead) && |t| > 0 && !IsTrimmable(t[0])
    ensures TrimStart(lead + t) == t
    decreases |lead|
  {
    if |lead| > 0 {
      assert (lead + t)[1..] == lead[1..] + t;
      TrimStartPad(lead[1..], t);
    } else {
      assert lead + t == t;
    }
  }

  lemma {:induction false} TrimEndPad(b: string, trail: string)
    requires AllTrimmable(trail) && |b| > 0 && !IsTrimmable(b[|b| - 1])
    ensures TrimEnd(b + trail) == b
    decreases |trail|
  {
    if |trail| > 0 {
      assert (b + trail)[..|b + trail| - 1] == b + trail[..|trail| - 1];
      TrimEndPad(b, trail[..|trail| - 1]);
    } else {
      assert b + trail == b;
    }
  }

  /** Writing a source field twice is refused with DuplicateKey naming that field. */
  lemma ParseFormatDuplicate(pairs: seq<(string, string)>, l: Layout, i: nat, j: nat)
    requires NamePairs(pairs) && ValidLayout(l)
    requires i < j < |pairs| && pairs[i].0 == pairs[j].0
    ensures ParseFields(Format(pairs, l)).Err?
    ensures ParseFields(Format(pairs, l)).error.DuplicateKey?
    ensures exists a, b :: 0 <= a < b < |pairs| && pairs[a].0 == pairs[b].0 == ParseFields(Format(pairs, l)).error.key
  {
    var f := Format(pairs, l);
    ClausePairsOfFormat(pairs, l);
    var cs := Clauses(f);
    assert KeyOf(cs[i]) == KeyOf(cs[j]);
    ParseFieldsOk(f);
    ParseFieldsErr(f);
    var a, b :| 0 <= a < b < |cs| && IsPair(cs[a]) && IsPair(cs[b]) &&
        KeyOf(cs[a]) == KeyOf(cs[b]) == ParseFields(f).error.key;
    assert pairs[a].0 == pairs[b].0 == ParseFields(f).error.key;
  }

  /** A clause without `AS` is refused as a bad field specifier. */
  lemma ParseNoAs(k: string)
    requires IsName(k)
    ensures ParseFields(k) == Err(BadFieldSpecifier(k))
  {
    TrimVisible(k);
    NoCommaInClause(k, []);
    NoAsInName(k, []);
    assert Clauses(k) == [k];
  }

  lemma AsTextFacts(l: Layout)
    requires ValidLayout(l)
    ensures forall x :: 0 <= x < |AsText(l)| ==> AsText(l)[x] != ','
  {
    var m := AsText(l);
    forall x | 0 <= x < |m| ensures m[x] != ',' {
      if x < |l.beforeAs| {
        assert m[x] == l.beforeAs[x];
      } else if x < |l.beforeAs| + 2 {
        assert m[x] == l.keyword[x - |l.beforeAs|];
      } else {
        assert m[x] == l.afterAs[x - |l.beforeAs| - 2];
      }
    }
  }

  /** A clause with two `AS` separators is one clause of the spec. */
  lemma TwoAsClauses(k: string, v: string, w: string, l: Layout)
    requires IsName(k) && IsName(v) && IsName(w) && ValidLayout(l)
    ensures Clauses(k + AsText(l) + v + AsText(l) + w) == [k + AsText(l) + v + AsText(l) + w]
  {
    var m := AsText(l);
    var c1 := ClauseText((k, v), l);
    var s := k + m + v + m + w;
    assert s == c1 + m + w;
    ClauseFacts((k, v), l);
    AsTextFacts(l);
    forall x | 0 <= x < |s| ensures s[x] != ',' {
      if x < |c1| { assert s[x] == c1[x]; }
      else if x < |c1| + |m| { assert s[x] == m[x - |c1|]; }
      else { assert s[x] == w[x - |c1| - |m|]; }
    }
    assert s[0] == k[0] && s[|s| - 1] == w[|w| - 1];
    TrimVisible(s);
    NoCommaInClause(s, []);
  }

  /** A clause with two `AS` separators splits into three names. */
  lemma TwoAsSplit(k: string, v: string, w: string, l: Layout)
    requires IsName(k) && IsName(v) && IsName(w) && ValidLayout(l)
    ensures Split(As, k + AsText(l) + v + AsText(l) + w) == [k, v, w]
  {
    var m := AsText(l);
    var tail := v + m + w;
    var s := k + m + tail;
    assert s == k + m + v + m + w;
    assert tail[0] == v[0];
    ClauseFirstMatch((k, tail), l);
    PiecesAround(As, k, m, tail);
    ClauseFirstMatch((v, w), l);
    PiecesAround(As, v, m, w);
    NoAsInName(w, []);
    assert Pieces(As, w) == [w];
    assert Pieces(As, s) == [k, v, w];
  }

  /** A clause with two `AS` separators is refused as a bad field specifier. */
  lemma ParseTwoAs(k: string, v: string, w: string, l: Layout)
    requires IsName(k) && IsName(v) && IsName(w) && ValidLayout(l)
    ensures ParseFields(k + AsText(l) + v + AsText(l) + w) == Err(BadFieldSpecifier(k + AsText(l) + v + AsText(l) + w))
  {
    TwoAsClauses(k, v, w, l);
    TwoAsSplit(k, v, w, l);
  }

  /** A two-clause spec parses to the two-entry map. */
  lemma ParseTwoPairs(k1: string, a1: string, k2: string, a2: string, l: Layout)
    requires IsName(k1) && IsName(a1) && IsName(k2) && IsName(a2) && k1 != k2 && ValidLayout(l)
    ensures ParseFields(Format([(k1, a1), (k2, a2)], l)) == Ok(map[k1 := a1, k2 := a2])
  {
    var pairs := [(k1, a1), (k2, a2)];
    ParseFormat(pairs, l);
    var m := ParseFields(Format(pairs, l)).value;
    var ks := set i | 0 <= i < |pairs| :: pairs[i].0;
    assert k1 in ks by { assert pairs[0].0 == k1; }
    assert k2 in ks by { assert pairs[1].0 == k2; }
    assert ks <= {k1, k2};
    assert m[k1] == a1 by { assert pairs[0] == (k1, a1); }
    assert m[k2] == a2 by { assert pairs[1] == (k2, a2); }
    assert m == map[k1 := a1, k2 := a2];
  }

  /** The example the source's comments give: `a AS x, b AS y` yields {a -> x, b -> y}. */
  lemma ParseTwoFields(f: string)
    requires f == "a AS x, b AS y"
    ensures ParseFields(f) == Ok(map["a" := "x", "b" := "y"])
  {
    var l := Layout("", "", " ", " ", "AS", " ", "");
    var pairs := [("a", "x"), ("b", "y")];
    assert ClauseText(pairs[0], l) == "a AS x";
    assert Body(pairs[1..], l) == "b AS y";
    assert Format(pairs, l) == f;
    ParseTwoPairs("a", "x", "b", "y", l);
  }

  /** An empty spec is one empty clause, which is refused. */
  lemma ParseEmpty()
    ensures ParseFields("") == Err(BadFieldSpecifier(""))
  {
    assert Clauses("") == [""];
    assert Split(As, "") == [""];
  }

  /** A lone comma splits into two empty pieces that Java's split drops: the map is empty. */
  lemma ParseLoneComma()
    ensures ParseFields(",") == Ok(map[])
  {
    assert Trim(",") == ",";
    assert MatchAt(Comma, ",", 0) == Some(1);
    assert Pieces(Comma, "") == [""];
    assert Pieces(Comma, ",") == ["", ""];
    assert Clauses(",") == [];
  }
}
