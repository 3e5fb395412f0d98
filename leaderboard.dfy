/**
 * The leaderboard client's request side: the sample entries it falls back to and
 * the filter it applies to them, the query parameters it builds from the filters
 * (a `URLSearchParams` filled by `set`), their `application/x-www-form-urlencoded`
 * text, and the request URL.
 */
module Leaderboard {
  import opened Wrappers
  import opened Strings
  import opened Bytes

  // ---------------------------------------------------------------- entries and filters

  /** A leaderboard row as the client sees it; the year may be absent, the time is ISO text. */
  datatype Entry = Entry(
    rank: int, userId: string, username: string, year: Option<int>, day: int,
    part1Completed: bool, part2Completed: bool, language: string,
    executionTimeMs: int, memoryUsageKb: int, linesOfRelevantCode: int, submittedAt: string)

  /** `LeaderboardFilters`: every field optional. */
  datatype Filters = Filters(
    year: Option<int>, day: Option<int>, language: Option<string>, username: Option<string>,
    limit: Option<int>, cursor: Option<string>)

  /** The default `{}`. */
  const NoFilters := Filters(None, None, None, None, None, None)

  /** A number field is truthy when present and not 0. */
  predicate NumberSet(n: Option<int>)
  {
    n.Some? && n.value != 0
  }

  /** A text field is truthy when present and not empty. */
  predicate TextSet(s: Option<string>)
  {
    s.Some? && s.value != []
  }

  /** The one demo row shown when the server has no leaderboard. */
  const SampleEntries: seq<Entry> := [
    Entry(1, "demo-user-1", "DemoUser", Some(2024), 5, true, true, "python",
          742, 12800, 64, "2024-12-05T14:32:00.000Z")
  ]

  /** The predicate of `filterSampleEntries`: each truthy criterion must match. */
  function Keep(filters: Filters, entry: Entry): (r: bool)
    ensures (!NumberSet(filters.year) && !NumberSet(filters.day) && !TextSet(filters.language)
             && !TextSet(filters.username)) ==> r
  {
    if NumberSet(filters.year) && entry.year != Some(filters.year.value) then false
    else if NumberSet(filters.day) && entry.day != filters.day.value then false
    else if TextSet(filters.language) && Lower(entry.language) != Lower(filters.language.value) then false
    else if TextSet(filters.username) && Lower(entry.username) != Lower(filters.username.value) then false
    else true
  }

  /** `entries.filter(...)` with that predicate, for any list of entries. */
  function FilterEntries(filters: Filters, entries: seq<Entry>): (r: seq<Entry>)
    ensures |r| <= |entries|
  {
    if entries == [] then []
    else (if Keep(filters, entries[0]) then [entries[0]] else []) + FilterEntries(filters, entries[1..])
  }

  /** `filterSampleEntries(filters)`. */
  function FilterSampleEntries(filters: Filters): (r: seq<Entry>)
    ensures |r| <= |SampleEntries|
  {
    FilterEntries(filters, SampleEntries)
  }

  /** An independent statement of case-insensitive equality: same length, same letters up to case. */
  predicate EqualIgnoringCase(a: string, b: string)
  {
    |a| == |b| && forall i :: 0 <= i < |a| ==> LowerChar(a[i]) == LowerChar(b[i])
  }

  lemma LowerEqual(a: string, b: string)
    ensures Lower(a) == Lower(b) <==> EqualIgnoringCase(a, b)
  {
    if EqualIgnoringCase(a, b) {
      assert forall i :: 0 <= i < |a| ==> Lower(a)[i] == Lower(b)[i];
    }
  }

  /**
   * An entry is kept exactly when it has the year and day of the filters when those
   * are set, and the language and username up to case when those are set.
   */
  lemma KeepCriteria(filters: Filters, entry: Entry)
    ensures Keep(filters, entry) <==>
      && (NumberSet(filters.year) ==> entry.year == filters.year)
      && (NumberSet(filters.day) ==> entry.day == filters.day.value)
      && (TextSet(filters.language) ==> EqualIgnoringCase(entry.language, filters.language.value))
      && (TextSet(filters.username) ==> EqualIgnoringCase(entry.username, filters.username.value))
  {
    if TextSet(filters.language) {
      LowerEqual(entry.language, filters.language.value);
    }
    if TextSet(filters.username) {
      LowerEqual(entry.username, filters.username.value);
    }
  }

  /** `a` is `b` with some elements left out, in the same order. */
  predicate IsSublist<T(==)>(a: seq<T>, b: seq<T>)
    decreases |b|
  {
    if a == [] then true
    else if b == [] then false
    else (a[0] == b[0] && IsSublist(a[1..], b[1..])) || IsSublist(a, b[1..])
  }

  lemma SublistCons<T>(a: seq<T>, b: seq<T>, x: T)
    requires IsSublist(a, b)
    ensures IsSublist(a, [x] + b) && IsSublist([x] + a, [x] + b)
  {
    assert ([x] + b)[1..] == b;
    assert ([x] + a)[1..] == a;
  }

  /** The filter keeps entries of its input, in their order. */
  lemma {:induction false} FilterSublist(filters: Filters, entries: seq<Entry>)
    ensures IsSublist(FilterEntries(filters, entries), entries)
    decreases |entries|
  {
    if entries != [] {
      FilterSublist(filters, entries[1..]);
      var rest := FilterEntries(filters, entries[1..]);
      SublistCons(rest, entries[1..], entries[0]);
      assert entries == [entries[0]] + entries[1..];
      if Keep(filters, entries[0]) {
        assert FilterEntries(filters, entries) == [entries[0]] + rest;
      } else {
        assert FilterEntries(filters, entries) == rest;
      }
    }
  }

  /** An entry is in the result exactly when it is in the input and kept. */
  lemma {:induction false} FilterMembers(filters: Filters, entries: seq<Entry>)
    ensures forall e :: e in FilterEntries(filters, entries) <==> e in entries && Keep(filters, e)
    decreases |entries|
  {
    if entries != [] {
      FilterMembers(filters, entries[1..]);
      assert entries == [entries[0]] + entries[1..];
    }
  }

  /** Filtering twice with the same filters is filtering once. */
  lemma {:induction false} FilterIdempotent(filters: Filters, entries: seq<Entry>)
    ensures FilterEntries(filters, FilterEntries(filters, entries)) == FilterEntries(filters, entries)
    decreases |entries|
  {
    if entries != [] {
      FilterIdempotent(filters, entries[1..]);
      var rest := FilterEntries(filters, entries[1..]);
      if Keep(filters, entries[0]) {
        assert ([entries[0]] + rest)[1..] == rest;
      } else {
        assert [] + rest == rest;
      }
    }
  }

  /** `narrow` sets every criterion `wide` sets, to the same value. */
  predicate Narrows(narrow: Filters, wide: Filters)
  {
    && (NumberSet(wide.year) ==> narrow.year == wide.year)
    && (NumberSet(wide.day) ==> narrow.day == wide.day)
    && (TextSet(wide.language) ==> narrow.language == wide.language)
    && (TextSet(wide.username) ==> narrow.username == wide.username)
  }

  /** Adding criteria (or keeping the same ones) never brings an entry back. */
  lemma {:induction false} FilterNarrows(narrow: Filters, wide: Filters, entries: seq<Entry>)
    requires Narrows(narrow, wide)
    ensures IsSublist(FilterEntries(narrow, entries), FilterEntries(wide, entries))
    decreases |entries|
  {
    if entries != [] {
      FilterNarrows(narrow, wide, entries[1..]);
      var a, b := FilterEntries(narrow, entries[1..]), FilterEntries(wide, entries[1..]);
      var x := entries[0];
      SublistCons(a, b, x);
      var ra := if Keep(narrow, x) then [x] + a else a;
      var rb := if Keep(wide, x) then [x] + b else b;
      assert FilterEntries(narrow, entries) == ra;
      assert FilterEntries(wide, entries) == rb;
      assert Keep(narrow, x) ==> Keep(wide, x);
    }
  }

  /** Filters without a truthy year, day, language or username keep every entry. */
  lemma {:induction false} FilterUnset(filters: Filters, entries: seq<Entry>)
    requires !NumberSet(filters.year) && !NumberSet(filters.day)
    requires !TextSet(filters.language) && !TextSet(filters.username)
    ensures FilterEntries(filters, entries) == entries
    decreases |entries|
  {
    if entries != [] {
      FilterUnset(filters, entries[1..]);
      assert entries == [entries[0]] + entries[1..];
    }
  }

  /** `limit` and `cursor` go to the server only: they never change the sample filter. */
  lemma {:induction false} FilterIgnoresPaging(filters: Filters, limit: Option<int>, cursor: Option<string>,
                                                 entries: seq<Entry>)
    ensures FilterEntries(filters.(limit := limit, cursor := cursor), entries) == FilterEntries(filters, entries)
    decreases |entries|
  {
    if entries != [] {
      FilterIgnoresPaging(filters, limit, cursor, entries[1..]);
    }
  }

  lemma FilterOne(filters: Filters, entry: Entry)
    ensures FilterEntries(filters, [entry]) == if Keep(filters, entry) then [entry] else []
  {
    assert [entry][1..] == [];
  }

  /** The demo row answers its own year, day, language and user in any case, and no other year. */
  lemma SampleLookup(limit: Option<int>, cursor: Option<string>)
    ensures FilterSampleEntries(Filters(Some(2024), Some(5), Some("Python"), Some("DEMOUSER"), limit, cursor))
      == SampleEntries
    ensures FilterSampleEntries(NoFilters) == SampleEntries
    ensures FilterSampleEntries(NoFilters.(year := Some(2023))) == []
  {
    var e := SampleEntries[0];
    var f := Filters(Some(2024), Some(5), Some("Python"), Some("DEMOUSER"), limit, cursor);
    assert EqualIgnoringCase("Python", e.language);
    assert EqualIgnoringCase("DEMOUSER", e.username);
    KeepCriteria(f, e);
    FilterOne(f, e);
    FilterOne(NoFilters, e);
    var other := NoFilters.(year := Some(2023));
    assert e.year == Some(2024) && NumberSet(other.year);
    assert !Keep(other, e);
    FilterOne(other, e);
  }

  // ---------------------------------------------------------------- query parameters

  /** The names of a parameter list, in order. */
  function Keys(pairs: seq<(string, string)>): seq<string>
  {
    seq(|pairs|, i requires 0 <= i < |pairs| => pairs[i].0)
  }

  /** `params.get(name)`: the value of the first pair with that name. */
  function Get(pairs: seq<(string, string)>, name: string): (r: Option<string>)
    ensures r.Some? <==> name in Keys(pairs)
  {
    if pairs == [] then None
    else
      assert Keys(pairs) == [pairs[0].0] + Keys(pairs[1..]);
      if pairs[0].0 == name then Some(pairs[0].1) else Get(pairs[1..], name)
  }

  /** The pairs whose name is not `name`. */
  function Without(pairs: seq<(string, string)>, name: string): (r: seq<(string, string)>)
    ensures name !in Keys(r)
  {
    if pairs == [] then []
    else if pairs[0].0 == name then Without(pairs[1..], name)
    else
      var rest := Without(pairs[1..], name);
      assert Keys([pairs[0]] + rest) == [pairs[0].0] + Keys(rest);
      [pairs[0]] + rest
  }

  /**
   * `params.set(name, value)` as the WHATWG URL Standard defines it (section 6.2, the
   * `URLSearchParams` class): the first pair with that name takes the value and the
   * later ones are removed; when there is none, a pair is appended.
   */
  function SetPairs(pairs: seq<(string, string)>, name: string, value: string): (r: seq<(string, string)>)
    ensures name in Keys(r)
  {
    if pairs == [] then assert Keys([(name, value)])[0] == name; [(name, value)]
    else if pairs[0].0 == name then
      var r := [(name, value)] + Without(pairs[1..], name);
      assert Keys(r)[0] == name;
      r
    else
      var rest := SetPairs(pairs[1..], name, value);
      assert Keys([pairs[0]] + rest) == [pairs[0].0] + Keys(rest);
      [pairs[0]] + rest
  }

  lemma {:induction false} GetAppend(a: seq<(string, string)>, b: seq<(string, string)>, name: string)
    ensures Get(a + b, name) == if Get(a, name).Some? then Get(a, name) else Get(b, name)
    decreases |a|
  {
    if a == [] {
      assert a + b == b;
    } else {
      GetAppend(a[1..], b, name);
      assert (a + b)[1..] == a[1..] + b;
    }
  }

  lemma {:induction false} GetWithout(pairs: seq<(string, string)>, name: string, other: string)
    requires other != name
    ensures Get(Without(pairs, name), other) == Get(pairs, other)
    decreases |pairs|
  {
    if pairs != [] {
      GetWithout(pairs[1..], name, other);
      if pairs[0].0 != name {
        assert ([pairs[0]] + Without(pairs[1..], name))[1..] == Without(pairs[1..], name);
      }
    }
  }

  lemma {:induction false} WithoutIdentity(pairs: seq<(string, string)>, name: string)
    requires name !in Keys(pairs)
    ensures Without(pairs, name) == pairs
    decreases |pairs|
  {
    if pairs != [] {
      assert Keys(pairs) == [pairs[0].0] + Keys(pairs[1..]);
      WithoutIdentity(pairs[1..], name);
      assert pairs == [pairs[0]] + pairs[1..];
    }
  }

  /** With no pair of that name, `set` appends one. */
  lemma {:induction false} SetAppends(pairs: seq<(string, string)>, name: string, value: string)
    requires name !in Keys(pairs)
    ensures SetPairs(pairs, name, value) == pairs + [(name, value)]
    decreases |pairs|
  {
    if pairs != [] {
      assert Keys(pairs) == [pairs[0].0] + Keys(pairs[1..]);
      SetAppends(pairs[1..], name, value);
      assert pairs + [(name, value)] == [pairs[0]] + (pairs[1..] + [(name, value)]);
    }
  }

  /**
   * After `set(name, value)` the name has exactly that one value, every other name
   * reads as before, and the other pairs are kept in their order.
   */
  lemma SetSemantics(pairs: seq<(string, string)>, name: string, value: string, other: string)
    ensures var r := SetPairs(pairs, name, value);
      && Get(r, name) == Some(value)
      && multiset(Keys(r))[name] == 1
      && (other != name ==> Get(r, other) == Get(pairs, other))
      && Without(r, name) == Without(pairs, name)
  {
    SetGets(pairs, name, value, other);
    SetKeyOnce(pairs, name, value);
    SetWithout(pairs, name, value);
  }

  /** `set` gives the name its new value and leaves the value of every other name. */
  lemma {:induction false} SetGets(pairs: seq<(string, string)>, name: string, value: string, other: string)
    ensures var r := SetPairs(pairs, name, value);
      Get(r, name) == Some(value) && (other != name ==> Get(r, other) == Get(pairs, other))
    decreases |pairs|
  {
    var r := SetPairs(pairs, name, value);
    if pairs != [] {
      if pairs[0].0 == name {
        assert r[1..] == Without(pairs[1..], name);
        if other != name {
          GetWithout(pairs[1..], name, other);
        }
      } else {
        SetGets(pairs[1..], name, value, other);
        assert r[1..] == SetPairs(pairs[1..], name, value);
      }
    }
  }

  /** After `set` the name occurs exactly once among the names. */
  lemma {:induction false} SetKeyOnce(pairs: seq<(string, string)>, name: string, value: string)
    ensures multiset(Keys(SetPairs(pairs, name, value)))[name] == 1
    decreases |pairs|
  {
    var r := SetPairs(pairs, name, value);
    if pairs == [] {
      assert Keys(r) == [name];
    } else if pairs[0].0 == name {
      var rest := Without(pairs[1..], name);
      assert r == [(name, value)] + rest;
      assert Keys(r) == [name] + Keys(rest);
    } else {
      SetKeyOnce(pairs[1..], name, value);
      var rest := SetPairs(pairs[1..], name, value);
      assert r == [pairs[0]] + rest;
      assert Keys(r) == [pairs[0].0] + Keys(rest);
    }
  }

  /** Apart from the pair of that name, `set` keeps the pairs in their order. */
  lemma {:induction false} SetWithout(pairs: seq<(string, string)>, name: string, value: string)
    ensures Without(SetPairs(pairs, name, value), name) == Without(pairs, name)
    decreases |pairs|
  {
    var r := SetPairs(pairs, name, value);
    if pairs != [] {
      if pairs[0].0 == name {
        var rest := Without(pairs[1..], name);
        assert r == [(name, value)] + rest;
        assert r[1..] == rest;
        WithoutIdentity(rest, name);
      } else {
        SetWithout(pairs[1..], name, value);
        assert r == [pairs[0]] + SetPairs(pairs[1..], name, value);
        assert r[1..] == SetPairs(pairs[1..], name, value);
      }
    }
  }

  /** A `URLSearchParams` object: its list of name-value pairs, changed in place by `set`. */
  class SearchParams {
    var pairs: seq<(string, string)>

    constructor ()
      ensures pairs == []
    {
      pairs := [];
    }

    /** `set(name, value)`. */
    method Set(name: string, value: string)
      modifies this
      ensures pairs == SetPairs(old(pairs), name, value)
    {
      pairs := SetPairs(pairs, name, value);
    }

    /** `toString()`. */
    function ToString(): (r: string)
      reads this
      ensures pairs != [] ==> StartsWith(r, EncodePair(pairs[0]))
    {
      Serialize(pairs)
    }
  }

  /** The fields `buildQuery` looks at, in its order: whether truthy, the name, the text. */
  function QueryFields(filters: Filters): seq<(bool, string, string)>
  {
    [(NumberSet(filters.year), "year", NumberText(filters.year)),
     (NumberSet(filters.day), "day", NumberText(filters.day)),
     (TextSet(filters.language), "language", Text(filters.language)),
     (TextSet(filters.username), "username", Text(filters.username)),
     (NumberSet(filters.limit), "limit", NumberText(filters.limit)),
     (TextSet(filters.cursor), "cursor", Text(filters.cursor))]
  }

  /** `n.toString()` for a present number. */
  function NumberText(n: Option<int>): string
  {
    if n.Some? then IntToString(n.value) else ""
  }

  function Text(s: Option<string>): string
  {
    if s.Some? then s.value else ""
  }

  /** The names `buildQuery` may set, in the order it sets them. */
  const QueryOrder: seq<string> := ["year", "day", "language", "username", "limit", "cursor"]

  function Names(fields: seq<(bool, string, string)>): seq<string>
  {
    seq(|fields|, i requires 0 <= i < |fields| => fields[i].1)
  }

  predicate Distinct(names: seq<string>)
  {
    forall i, j :: 0 <= i < j < |names| ==> names[i] != names[j]
  }

  /** The pairs of the truthy fields, in order. */
  function Present(fields: seq<(bool, string, string)>): (r: seq<(string, string)>)
    ensures |r| <= |fields|
  {
    if fields == [] then []
    else (if fields[0].0 then [(fields[0].1, fields[0].2)] else []) + Present(fields[1..])
  }

  /** The parameters `buildQuery` produces. */
  function QueryPairs(filters: Filters): (r: seq<(string, string)>)
    ensures |r| <= 6
  {
    Present(QueryFields(filters))
  }

  lemma QueryFieldNames(filters: Filters)
    ensures Names(QueryFields(filters)) == QueryOrder && Distinct(QueryOrder)
  {
  }

  lemma {:induction false} KeysAppend(a: seq<(string, string)>, b: seq<(string, string)>)
    ensures Keys(a + b) == Keys(a) + Keys(b)
  {
  }

  /** The names of the pairs are the names of the truthy fields, in order. */
  lemma {:induction false} PresentKeys(fields: seq<(bool, string, string)>)
    ensures IsSublist(Keys(Present(fields)), Names(fields))
    ensures forall k :: k in Keys(Present(fields)) ==> k in Names(fields)
    decreases |fields|
  {
    if fields != [] {
      PresentKeys(fields[1..]);
      var head := if fields[0].0 then [(fields[0].1, fields[0].2)] else [];
      var rest := Present(fields[1..]);
      KeysAppend(head, rest);
      assert Names(fields) == [fields[0].1] + Names(fields[1..]);
      SublistCons(Keys(rest), Names(fields[1..]), fields[0].1);
      if fields[0].0 {
        assert Keys(head) == [fields[0].1];
      } else {
        assert Keys(head) + Keys(rest) == Keys(rest);
      }
    }
  }

  lemma {:induction false} PresentSnoc(fields: seq<(bool, string, string)>, k: nat)
    requires k < |fields|
    ensures Present(fields[..k + 1]) == Present(fields[..k])
      + (if fields[k].0 then [(fields[k].1, fields[k].2)] else [])
    decreases k
  {
    if k == 0 {
      assert fields[..1][1..] == [];
      assert fields[..0] == [];
    } else {
      PresentSnoc(fields[1..], k - 1);
      assert fields[..k + 1][1..] == fields[1..][..k];
      assert fields[..k][1..] == fields[1..][..k - 1];
      assert fields[..k][0] == fields[..k + 1][0] == fields[0];
    }
  }

  /** The parameters of the first `k` fields. */
  function QueryPrefix(filters: Filters, k: nat): seq<(string, string)>
    requires k <= 6
  {
    Present(QueryFields(filters)[..k])
  }

  /** One step of `buildQuery`: `set` on a field's name that is not there yet appends it. */
  lemma BuildStep(filters: Filters, k: nat, before: seq<(string, string)>, after: seq<(string, string)>,
                  present: bool, name: string, value: string)
    requires k < 6 && before == QueryPrefix(filters, k)
    requires QueryFields(filters)[k] == (present, name, value)
    requires after == SetWhen(before, present, name, value)
    ensures after == QueryPrefix(filters, k + 1)
  {
    var fields := QueryFields(filters);
    QueryFieldNames(filters);
    PresentSnoc(fields, k);
    PresentKeys(fields[..k]);
    assert forall j :: 0 <= j < k ==> Names(fields[..k])[j] == Names(fields)[j];
    assert name == Names(fields)[k];
    assert name !in Names(fields[..k]);
    SetAppends(before, name, value);
  }

  /** `set(name, value)` when the field is truthy, nothing otherwise. */
  function SetWhen(pairs: seq<(string, string)>, present: bool, name: string, value: string): seq<(string, string)>
  {
    if present then SetPairs(pairs, name, value) else pairs
  }

  /** The six guarded `set` calls of `buildQuery`, one after the other, from an empty list. */
  function SetChain(filters: Filters): seq<(string, string)>
  {
    var p0 := SetWhen([], NumberSet(filters.year), "year", NumberText(filters.year));
    var p1 := SetWhen(p0, NumberSet(filters.day), "day", NumberText(filters.day));
    var p2 := SetWhen(p1, TextSet(filters.language), "language", Text(filters.language));
    var p3 := SetWhen(p2, TextSet(filters.username), "username", Text(filters.username));
    var p4 := SetWhen(p3, NumberSet(filters.limit), "limit", NumberText(filters.limit));
    var p5 := SetWhen(p4, TextSet(filters.cursor), "cursor", Text(filters.cursor));
    p5
  }

  /** The guarded `set` calls of the first `k` fields, in order. */
  function SetFirst(filters: Filters, k: nat): seq<(string, string)>
    requires k <= 6
  {
    if k == 0 then []
    else
      var (present, name, value) := QueryFields(filters)[k - 1];
      SetWhen(SetFirst(filters, k - 1), present, name, value)
  }

  lemma {:induction false} SetFirstPrefix(filters: Filters, k: nat)
    requires k <= 6
    ensures SetFirst(filters, k) == QueryPrefix(filters, k)
  {
    if k == 0 {
      assert QueryFields(filters)[..0] == [];
    } else {
      SetFirstPrefix(filters, k - 1);
      var (present, name, value) := QueryFields(filters)[k - 1];
      BuildStep(filters, k - 1, SetFirst(filters, k - 1), SetFirst(filters, k), present, name, value);
    }
  }

  /** The chain of `set` calls yields the pairs of the truthy fields, in order. */
  lemma ChainIsQuery(filters: Filters)
    ensures SetChain(filters) == QueryPairs(filters)
  {
    SetFirstPrefix(filters, 6);
    assert QueryFields(filters)[..6] == QueryFields(filters);
    assert SetChain(filters) == SetFirst(filters, 6);
  }

  /** `buildQuery(filters)`: a fresh parameter list, then one `set` per truthy field. */
  method BuildQuery(filters: Filters) returns (params: SearchParams)
    ensures fresh(params)
    ensures params.pairs == QueryPairs(filters)
  {
    params := new SearchParams();
    if NumberSet(filters.year) {
      params.Set("year", IntToString(filters.year.value));
    }
    if NumberSet(filters.day) {
      params.Set("day", IntToString(filters.day.value));
    }
    if TextSet(filters.language) {
      params.Set("language", filters.language.value);
    }
    if TextSet(filters.username) {
      params.Set("username", filters.username.value);
    }
    if NumberSet(filters.limit) {
      params.Set("limit", IntToString(filters.limit.value));
    }
    if TextSet(filters.cursor) {
      params.Set("cursor", filters.cursor.value);
    }
    ChainIsQuery(filters);
  }

  lemma {:induction false} SublistDistinct(a: seq<string>, b: seq<string>)
    requires IsSublist(a, b) && Distinct(b)
    ensures Distinct(a)
    decreases |b|
  {
    if a != [] {
      assert Distinct(b[1..]) by {
        assert forall i :: 0 <= i < |b[1..]| ==> b[1..][i] == b[i + 1];
      }
      if IsSublist(a, b[1..]) {
        SublistDistinct(a, b[1..]);
      } else {
        SublistDistinct(a[1..], b[1..]);
        SublistIn(a[1..], b[1..]);
        assert b[0] !in b[1..];
        forall j | 0 < j < |a| ensures a[0] != a[j] {
          assert a[j] == a[1..][j - 1];
        }
        forall i, j | 0 < i < j < |a| ensures a[i] != a[j] {
          assert a[i] == a[1..][i - 1] && a[j] == a[1..][j - 1];
        }
      }
    }
  }

  lemma {:induction false} SublistIn<T>(a: seq<T>, b: seq<T>)
    requires IsSublist(a, b)
    ensures forall x :: x in a ==> x in b
    decreases |b|
  {
    if a != [] {
      if IsSublist(a, b[1..]) {
        SublistIn(a, b[1..]);
      } else {
        SublistIn(a[1..], b[1..]);
        assert a == [a[0]] + a[1..];
      }
    }
  }

  /** Each name appears at most once, and in the order year, day, language, username, limit, cursor. */
  lemma QueryOrderKept(filters: Filters)
    ensures IsSublist(Keys(QueryPairs(filters)), QueryOrder)
    ensures Distinct(Keys(QueryPairs(filters)))
  {
    QueryFieldNames(filters);
    PresentKeys(QueryFields(filters));
    SublistDistinct(Keys(QueryPairs(filters)), QueryOrder);
  }

  /** `Get` on the pairs of distinctly named fields reads each field's text when it is truthy. */
  lemma {:induction false} PresentGet(fields: seq<(bool, string, string)>, i: nat)
    requires Distinct(Names(fields)) && i < |fields|
    ensures Get(Present(fields), fields[i].1) == if fields[i].0 then Some(fields[i].2) else None
    decreases i
  {
    var head := if fields[0].0 then [(fields[0].1, fields[0].2)] else [];
    var rest := Present(fields[1..]);
    GetAppend(head, rest, fields[i].1);
    assert Names(fields) == [fields[0].1] + Names(fields[1..]);
    assert Names(fields[1..]) == Names(fields)[1..];
    assert Distinct(Names(fields[1..])) by {
      forall a, b | 0 <= a < b < |fields| - 1 ensures Names(fields[1..])[a] != Names(fields[1..])[b] {
        assert Names(fields)[a + 1] != Names(fields)[b + 1];
      }
    }
    if i == 0 {
      PresentKeys(fields[1..]);
      forall j | 0 <= j < |fields| - 1 ensures Names(fields[1..])[j] != fields[0].1 {
        assert Names(fields)[0] != Names(fields)[j + 1];
      }
    } else {
      assert fields[i] == fields[1..][i - 1];
      PresentGet(fields[1..], i - 1);
      assert fields[0].1 != fields[i].1 by {
        assert Names(fields)[0] != Names(fields)[i];
      }
    }
  }

  /** The parameters are present exactly for the truthy fields, each with its field's text. */
  lemma QueryValues(filters: Filters)
    ensures var q := QueryPairs(filters);
      && Get(q, "year") == (if NumberSet(filters.year) then Some(IntToString(filters.year.value)) else None)
      && Get(q, "day") == (if NumberSet(filters.day) then Some(IntToString(filters.day.value)) else None)
      && Get(q, "language") == (if TextSet(filters.language) then filters.language else None)
      && Get(q, "username") == (if TextSet(filters.username) then filters.username else None)
      && Get(q, "limit") == (if NumberSet(filters.limit) then Some(IntToString(filters.limit.value)) else None)
      && Get(q, "cursor") == (if TextSet(filters.cursor) then filters.cursor else None)
  {
    var fields := QueryFields(filters);
    QueryFieldNames(filters);
    PresentGet(fields, 0);
    PresentGet(fields, 1);
    PresentGet(fields, 2);
    PresentGet(fields, 3);
    PresentGet(fields, 4);
    PresentGet(fields, 5);
  }

  // ---------------------------------------------------------------- form-urlencoded text

  /** The bytes the form serializer leaves as they are: `*`, `-`, `.`, digits, letters and `_`. */
  predicate Unreserved(b: byte)
  {
    b == 0x2A || b == 0x2D || b == 0x2E || 0x30 <= b <= 0x39 || 0x41 <= b <= 0x5A || b == 0x5F || 0x61 <= b <= 0x7A
  }

  /** An upper-case hexadecimal digit. */
  function HexDigit(d: nat): (c: char)
    requires d < 16
    ensures '0' <= c <= '9' || 'A' <= c <= 'F'
  {
    if d < 10 then ('0' as int + d) as char else ('A' as int + d - 10) as char
  }

  /** The value of a hexadecimal digit of either case. */
  function HexValue(c: char): (r: Option<nat>)
    ensures r.Some? ==> r.value < 16
  {
    if '0' <= c <= '9' then Some(c as int - '0' as int)
    else if 'A' <= c <= 'F' then Some(c as int - 'A' as int + 10)
    else if 'a' <= c <= 'f' then Some(c as int - 'a' as int + 10)
    else None
  }

  lemma HexRoundTrip(d: nat)
    requires d < 16
    ensures HexValue(HexDigit(d)) == Some(d)
  {
  }

  /**
   * One byte as the application/x-www-form-urlencoded serializer of the WHATWG URL
   * Standard writes it (section 5.2): space as '+', unreserved bytes as themselves,
   * every other byte as '%' and two upper-case hex digits.
   */
  function EncodeByte(b: byte): (r: string)
    ensures r != [] && '&' !in r && '=' !in r
  {
    if b == 0x20 then "+"
    else if Unreserved(b) then [b as int as char]
    else ['%', HexDigit(b as int / 16), HexDigit(b as int % 16)]
  }

  function FormEncode(bs: seq<byte>): (r: string)
    ensures '&' !in r && '=' !in r
  {
    if bs == [] then [] else EncodeByte(bs[0]) + FormEncode(bs[1..])
  }

  /** The UTF-8 encoding of one Unicode scalar value. */
  function Utf8(c: char): (r: seq<byte>)
    ensures 1 <= |r| <= 4
    ensures (c as int < 0x80) <==> |r| == 1
    ensures |r| == 2 ==> 0xC0 <= r[0] < 0xE0
    ensures |r| == 3 ==> 0xE0 <= r[0] < 0xF0
    ensures |r| == 4 ==> 0xF0 <= r[0] < 0xF8
    ensures forall i :: 1 <= i < |r| ==> 0x80 <= r[i] < 0xC0
  {
    var v := c as int;
    if v < 0x80 then [v as byte]
    else if v < 0x800 then [(0xC0 + v / 64) as byte, (0x80 + v % 64) as byte]
    else if v < 0x10000 then [(0xE0 + v / 4096) as byte, (0x80 + v / 64 % 64) as byte, (0x80 + v % 64) as byte]
    else [(0xF0 + v / 262144) as byte, (0x80 + v / 4096 % 64) as byte, (0x80 + v / 64 % 64) as byte,
          (0x80 + v % 64) as byte]
  }

  function Utf8Encode(s: string): seq<byte>
  {
    if s == [] then [] else Utf8(s[0]) + Utf8Encode(s[1..])
  }

  /** One name or value: its UTF-8 bytes, form-encoded. */
  function EncodeComponent(s: string): string
  {
    FormEncode(Utf8Encode(s))
  }

  function EncodePair(p: (string, string)): string
  {
    EncodeComponent(p.0) + "=" + EncodeComponent(p.1)
  }

  function EncodePairs(pairs: seq<(string, string)>): (r: seq<string>)
    ensures |r| == |pairs|
    ensures forall i :: 0 <= i < |r| ==> r[i] == EncodePair(pairs[i])
  {
    if pairs == [] then [] else [EncodePair(pairs[0])] + EncodePairs(pairs[1..])
  }

  /** `params.toString()`: the encoded pairs joined with '&'. */
  function Serialize(pairs: seq<(string, string)>): (r: string)
    ensures pairs != [] ==> StartsWith(r, EncodePair(pairs[0]))
  {
    Join(EncodePairs(pairs), "&")
  }

  /** Prefixes one decoded byte to the rest of a decoding. */
  function Prepend(b: byte, rest: Option<seq<byte>>): Option<seq<byte>>
  {
    if rest.Some? then Some([b] + rest.value) else None
  }

  /**
   * The inverse of the serializer: '+' is a space, '%' and two hex digits a byte,
   * an unreserved character itself; anything else is not serializer output.
   */
  function FormDecode(s: string): (r: Option<seq<byte>>)
    decreases |s|
  {
    if s == [] then Some([])
    else if s[0] == '+' then Prepend(0x20, FormDecode(s[1..]))
    else if s[0] == '%' then
      if |s| >= 3 && HexValue(s[1]).Some? && HexValue(s[2]).Some? then
        Prepend((HexValue(s[1]).value * 16 + HexValue(s[2]).value) as byte, FormDecode(s[3..]))
      else None
    else if s[0] as int < 256 && Unreserved(s[0] as int as byte) then
      Prepend(s[0] as int as byte, FormDecode(s[1..]))
    else None
  }

  /** Decoding the text of one byte followed by more text decodes that byte, then the rest. */
  lemma DecodeByte(b: byte, rest: string)
    ensures FormDecode(EncodeByte(b) + rest) == Prepend(b, FormDecode(rest))
  {
    var t := EncodeByte(b) + rest;
    if b == 0x20 {
      assert t[1..] == rest;
    } else if Unreserved(b) {
      assert t[1..] == rest;
      assert t[0] as int as byte == b;
    } else {
      var hi, lo := b as int / 16, b as int % 16;
      HexRoundTrip(hi);
      HexRoundTrip(lo);
      assert t[0] == '%' && t[1] == HexDigit(hi) && t[2] == HexDigit(lo);
      assert t[3..] == rest;
      assert (hi * 16 + lo) as byte == b;
    }
  }

  /** Form-encoded bytes decode back to themselves. */
  lemma {:induction false} FormRoundTrip(bs: seq<byte>)
    ensures FormDecode(FormEncode(bs)) == Some(bs)
    decreases |bs|
  {
    if bs != [] {
      FormRoundTrip(bs[1..]);
      DecodeByte(bs[0], FormEncode(bs[1..]));
      assert [bs[0]] + bs[1..] == bs;
    }
  }

  /** Text made of unreserved ASCII characters only. */
  predicate PlainText(s: string)
  {
    forall i :: 0 <= i < |s| ==> s[i] as int < 128 && Unreserved(s[i] as int as byte)
  }

  /** Names, digits and a minus sign are written as they are. */
  lemma {:induction false} PlainEncodes(s: string)
    requires PlainText(s)
    ensures EncodeComponent(s) == s
    decreases |s|
  {
    if s != [] {
      PlainEncodes(s[1..]);
      var b := s[0] as int as byte;
      assert Utf8Encode(s) == [b] + Utf8Encode(s[1..]);
      assert FormEncode(Utf8Encode(s)) == EncodeByte(b) + FormEncode(Utf8Encode(s[1..]));
      assert [b as int as char] + s[1..] == s;
    }
  }

  /** One encoded name-value piece: the text of both halves, in order. */
  function DecodePair(piece: string): Option<(seq<byte>, seq<byte>)>
  {
    var halves := Split(piece, '=');
    if |halves| != 2 then None
    else
      var name, value := FormDecode(halves[0]), FormDecode(halves[1]);
      if name.Some? && value.Some? then Some((name.value, value.value)) else None
  }

  function DecodePieces(pieces: seq<string>): Option<seq<(seq<byte>, seq<byte>)>>
  {
    if pieces == [] then Some([])
    else
      var head, rest := DecodePair(pieces[0]), DecodePieces(pieces[1..]);
      if head.Some? && rest.Some? then Some([head.value] + rest.value) else None
  }

  /** A serialized query read back as its name-value byte strings. */
  function DecodeQuery(s: string): Option<seq<(seq<byte>, seq<byte>)>>
  {
    if s == [] then Some([]) else DecodePieces(Split(s, '&'))
  }

  /** The UTF-8 bytes of a name and of its value. */
  function PairBytes(p: (string, string)): (seq<byte>, seq<byte>)
  {
    (Utf8Encode(p.0), Utf8Encode(p.1))
  }

  lemma DecodeEncodedPair(p: (string, string))
    ensures DecodePair(EncodePair(p)) == Some(PairBytes(p))
  {
    var a, b := EncodeComponent(p.0), EncodeComponent(p.1);
    assert Join([a, b], "=") == a + "=" + b;
    SplitJoin([a, b], '=');
    FormRoundTrip(Utf8Encode(p.0));
    FormRoundTrip(Utf8Encode(p.1));
  }

  /** The UTF-8 bytes of every pair, in order. */
  function PairsBytes(pairs: seq<(string, string)>): (r: seq<(seq<byte>, seq<byte>)>)
    ensures |r| == |pairs|
  {
    seq(|pairs|, i requires 0 <= i < |pairs| => PairBytes(pairs[i]))
  }

  lemma {:induction false} DecodeEncodedPairs(pairs: seq<(string, string)>)
    ensures DecodePieces(EncodePairs(pairs)) == Some(PairsBytes(pairs))
    decreases |pairs|
  {
    if pairs != [] {
      var pieces := EncodePairs(pairs);
      DecodeEncodedPairs(pairs[1..]);
      DecodeEncodedPair(pairs[0]);
      assert pieces == [EncodePair(pairs[0])] + EncodePairs(pairs[1..]);
      DecodeCons(pieces, PairBytes(pairs[0]), PairsBytes(pairs[1..]));
      PairsBytesCons(pairs);
    }
  }

  lemma PairsBytesCons(pairs: seq<(string, string)>)
    requires pairs != []
    ensures PairsBytes(pairs) == [PairBytes(pairs[0])] + PairsBytes(pairs[1..])
  {
  }

  /** The first piece and the rest decoded on their own decode the whole. */
  lemma DecodeCons(pieces: seq<string>, head: (seq<byte>, seq<byte>), rest: seq<(seq<byte>, seq<byte>)>)
    requires pieces != [] && DecodePair(pieces[0]) == Some(head) && DecodePieces(pieces[1..]) == Some(rest)
    ensures DecodePieces(pieces) == Some([head] + rest)
  {
  }

  /** A non-empty join begins with its first piece. */
  lemma JoinStarts(parts: seq<string>, sep: string)
    requires parts != []
    ensures StartsWith(Join(parts, sep), parts[0])
  {
    if |parts| > 1 {
      assert Join(parts, sep) == parts[0] + (sep + Join(parts[1..], sep));
    }
  }

  /** The query text is empty exactly when there are no parameters. */
  lemma SerializeEmpty(pairs: seq<(string, string)>)
    ensures Serialize(pairs) == [] <==> pairs == []
  {
    if pairs != [] {
      JoinStarts(EncodePairs(pairs), "&");
      assert |EncodePair(pairs[0])| > 0;
    }
  }

  /** The query text reads back as the UTF-8 bytes of every name and value, in order. */
  lemma SerializeRoundTrip(pairs: seq<(string, string)>)
    ensures DecodeQuery(Serialize(pairs)) == Some(PairsBytes(pairs))
  {
    SerializeEmpty(pairs);
    if pairs == [] {
      assert PairsBytes(pairs) == [];
    } else {
      var pieces := EncodePairs(pairs);
      forall i | 0 <= i < |pieces| ensures '&' !in pieces[i] {
        assert pieces[i] == EncodePair(pairs[i]);
      }
      SplitJoin(pieces, '&');
      assert Split(Serialize(pairs), '&') == pieces;
      DecodeEncodedPairs(pairs);
    }
  }

  /** A number's decimal text is written into the query as it is. */
  lemma NumberEncodes(n: int)
    ensures EncodeComponent(IntToString(n)) == IntToString(n)
  {
    var m: nat := if n < 0 then -n else n;
    var t := NatToString(m, 10);
    var ds := Digits(m, 10);
    assert PlainText(t) by {
      forall i | 0 <= i < |t| ensures t[i] as int < 128 && Unreserved(t[i] as int as byte) {
        assert t[i] == DigitChar(ds[i]) && ds[i] < 10;
      }
    }
    if n < 0 {
      var u := "-" + t;
      assert PlainText(u) by {
        forall i | 0 <= i < |u| ensures u[i] as int < 128 && Unreserved(u[i] as int as byte) {
          if i > 0 {
            assert u[i] == t[i - 1];
          }
        }
      }
      PlainEncodes(u);
    } else {
      PlainEncodes(t);
    }
  }

  // ---------------------------------------------------------------- the request URL

  /** No criterion, limit or cursor is truthy. */
  predicate NoCriteria(filters: Filters)
  {
    !NumberSet(filters.year) && !NumberSet(filters.day) && !TextSet(filters.language)
    && !TextSet(filters.username) && !NumberSet(filters.limit) && !TextSet(filters.cursor)
  }

  lemma {:induction false} PresentEmpty(fields: seq<(bool, string, string)>)
    ensures Present(fields) == [] <==> forall i :: 0 <= i < |fields| ==> !fields[i].0
    decreases |fields|
  {
    if fields != [] {
      PresentEmpty(fields[1..]);
      assert forall i :: 1 <= i < |fields| ==> fields[i] == fields[1..][i - 1];
    }
  }

  /** Empty filters give an empty parameter list, and only they do. */
  lemma QueryEmpty(filters: Filters)
    ensures QueryPairs(filters) == [] <==> NoCriteria(filters)
  {
    var fields := QueryFields(filters);
    PresentEmpty(fields);
    assert NoCriteria(filters) <==> !fields[0].0 && !fields[1].0 && !fields[2].0 && !fields[3].0 && !fields[4].0 && !fields[5].0;
  }

  const DefaultApiBase: string := "http://localhost:3001"

  /** `API_BASE`: the configured base, or the local backend when none is configured. */
  function ApiBase(configured: Option<string>): (r: string)
    ensures configured.None? ==> r == DefaultApiBase
    ensures configured.Some? ==> r == configured.value
  {
    if configured.Some? then configured.value else DefaultApiBase
  }

  /** The path of the leaderboard endpoint under the API base. */
  const LeaderboardPath: string := "/api/leaderboard"

  /**
   * The URL `fetchLeaderboard` requests: the leaderboard path, and "?" with the
   * query only when the query is not empty.
   */
  method LeaderboardUrl(apiBase: string, filters: Filters) returns (url: string)
    ensures NoCriteria(filters) ==> url == apiBase + LeaderboardPath
    ensures !NoCriteria(filters) ==> url == apiBase + LeaderboardPath + "?" + Serialize(QueryPairs(filters))
  {
    var params := BuildQuery(filters);
    var queryString := params.ToString();
    QueryEmpty(filters);
    SerializeEmpty(params.pairs);
    if queryString != [] {
      url := apiBase + LeaderboardPath + "?" + queryString;
    } else {
      url := apiBase + LeaderboardPath;
    }
  }
}
