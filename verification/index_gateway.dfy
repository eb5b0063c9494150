/**
 * The parts of app/Services/MeiliSearchService.php that compute rather
 * than talk to the engine: the index settings, the filter expression, the
 * merge of search options, the post-processing of suggestion hits and the
 * document sent for indexing. Every engine call is a function-valued
 * parameter whose result stands for what the client returned or threw.
 */
module IndexGateway {
  import opened Wrappers
  import opened Text
  import opened Listings

  // ---------------------------------------------------------------------
  // Index settings (`initializeIndex`)
  // ---------------------------------------------------------------------

  const IndexName: string := "advertisements"
  const SearchableAttributes: seq<string> := ["title", "content", "description", "category", "location", "tags"]
  const FilterableAttributes: seq<string> := ["category", "location", "price", "is_active", "expires_at"]
  const SortableAttributes: seq<string> := ["price", "created_at", "expires_at"]
  const RankingRules: seq<string> := ["words", "typo", "proximity", "attribute", "sort", "exactness"]

  // ---------------------------------------------------------------------
  // Filter expression (`buildFilterString`)
  // ---------------------------------------------------------------------

  /** The `$filters` array; None stands for a key that `isset` reports missing. */
  datatype FilterMap = FilterMap(
    category: Option<string>,
    location: Option<string>,
    minPrice: Option<int>,
    maxPrice: Option<int>,
    isActive: Option<bool>)

  const NoFilters: FilterMap := FilterMap(None, None, None, None, None)

  predicate HasPriceBound(f: FilterMap) {
    f.minPrice.Some? || f.maxPrice.Some?
  }

  /** The fields that get a clause, in emission order. */
  function PresentFields(f: FilterMap): seq<string> {
    (if f.category.Some? then ["category"] else [])
    + (if f.location.Some? then ["location"] else [])
    + (if HasPriceBound(f) then ["price"] else [])
    + (if f.isActive.Some? then ["is_active"] else [])
  }

  /**
   * The price clause: `price`, then ` >= m` when a minimum is given, then
   * ` AND price <= M` (after a minimum) or ` <= M` (alone) when a maximum is.
   */
  function PriceClause(min: Option<int>, max: Option<int>): string {
    var withMin := if min.Some? then "price" + " >= " + IntToString(min.value) else "price";
    if max.Some? then withMin + (if min.Some? then " AND price" else "") + " <= " + IntToString(max.value)
    else withMin
  }

  /** The three price clauses: both bounds, the minimum only, the maximum only. */
  lemma PriceClauseForms(min: Option<int>, max: Option<int>)
    ensures min.Some? && max.Some? ==>
      PriceClause(min, max) == "price >= " + IntToString(min.value) + " AND price <= " + IntToString(max.value)
    ensures min.Some? && max.None? ==> PriceClause(min, max) == "price >= " + IntToString(min.value)
    ensures min.None? && max.Some? ==> PriceClause(min, max) == "price <= " + IntToString(max.value)
  {
    if min.Some? && max.Some? {
      BothBounds(min.value, max.value);
    } else if min.Some? {
      MinimumOnly(min.value);
    } else if max.Some? {
      MaximumOnly(max.value);
    }
  }

  lemma BothBounds(lo: int, hi: int)
    ensures PriceClause(Some(lo), Some(hi)) == "price >= " + IntToString(lo) + " AND price <= " + IntToString(hi)
  {
    var m, n := IntToString(lo), IntToString(hi);
    assert PriceClause(Some(lo), Some(hi)) == "price" + " >= " + m + " AND price" + " <= " + n;
  }

  lemma MinimumOnly(lo: int)
    ensures PriceClause(Some(lo), None) == "price >= " + IntToString(lo)
  {
    assert PriceClause(Some(lo), None) == "price" + " >= " + IntToString(lo);
  }

  lemma MaximumOnly(hi: int)
    ensures PriceClause(None, Some(hi)) == "price <= " + IntToString(hi)
  {
    assert PriceClause(None, Some(hi)) == "price" + " <= " + IntToString(hi);
  }

  function BoolLiteral(b: bool): string {
    if b then "true" else "false"
  }

  /** The clauses in emission order, one per present field. */
  function FilterParts(f: FilterMap): seq<string> {
    (if f.category.Some? then ["category = '" + f.category.value + "'"] else [])
    + (if f.location.Some? then ["location = '" + f.location.value + "'"] else [])
    + (if HasPriceBound(f) then [PriceClause(f.minPrice, f.maxPrice)] else [])
    + (if f.isActive.Some? then ["is_active = " + BoolLiteral(f.isActive.value)] else [])
  }

  /** The filter expression as a value: the clauses joined by " AND ". */
  function FilterString(f: FilterMap): string {
    Implode(" AND ", FilterParts(f))
  }

  /** `buildFilterString`: appends clauses to a list, extending the price clause in place. */
  method BuildFilterString(filters: FilterMap) returns (r: string)
    ensures r == FilterString(filters)
  {
    var filterParts: seq<string> := [];
    if filters.category.Some? {
      filterParts := filterParts + ["category = '" + filters.category.value + "'"];
    }
    if filters.location.Some? {
      filterParts := filterParts + ["location = '" + filters.location.value + "'"];
    }
    if filters.minPrice.Some? || filters.maxPrice.Some? {
      var priceFilter := "price";
      if filters.minPrice.Some? {
        priceFilter := "price" + " >= " + IntToString(filters.minPrice.value);
      }
      if filters.maxPrice.Some? {
        priceFilter := priceFilter
          + (if filters.minPrice.Some? then " AND price" else "") + " <= "
          + IntToString(filters.maxPrice.value);
      }
      filterParts := filterParts + [priceFilter];
    }
    if filters.isActive.Some? {
      filterParts := filterParts + ["is_active = " + BoolLiteral(filters.isActive.value)];
    }
    assert filterParts == FilterParts(filters);
    r := Implode(" AND ", filterParts);
  }

  lemma {:induction false} ImplodeEmptyIff(sep: string, parts: seq<string>)
    requires forall i :: 0 <= i < |parts| ==> parts[i] != ""
    ensures Implode(sep, parts) == "" <==> parts == []
    decreases |parts|
  {
    if |parts| > 1 {
      ImplodeEmptyIff(sep, parts[1..]);
    }
  }

  /** The expression is empty exactly when no filter is present. */
  lemma FilterStringEmptyIff(f: FilterMap)
    ensures FilterString(f) == "" <==> PresentFields(f) == []
  {
    var parts := FilterParts(f);
    assert |parts| == |PresentFields(f)|;
    forall i | 0 <= i < |parts| ensures parts[i] != "" {
      assert |parts[i]| > 0;
    }
    ImplodeEmptyIff(" AND ", parts);
  }

  predicate StartsWith(s: string, prefix: string) {
    prefix <= s
  }

  /** A lone category or location filter renders as `field = 'value'`, a lone flag as `is_active = true|false`. */
  lemma SingleClauseRendering(v: string, b: bool)
    ensures FilterString(FilterMap(Some(v), None, None, None, None)) == "category = '" + v + "'"
    ensures FilterString(FilterMap(None, Some(v), None, None, None)) == "location = '" + v + "'"
    ensures FilterString(FilterMap(None, None, None, None, Some(b))) == "is_active = " + BoolLiteral(b)
  {
  }

  /**
   * The builder emits one clause per present field, each clause opens with the
   * name of its field, and every such field is one the index declares filterable.
   */
  lemma FilterFieldsAreFilterable(f: FilterMap)
    ensures |FilterParts(f)| == |PresentFields(f)|
    ensures forall i :: 0 <= i < |FilterParts(f)| ==> StartsWith(FilterParts(f)[i], PresentFields(f)[i] + " ")
    ensures forall field :: field in PresentFields(f) ==> field in FilterableAttributes
  {
    var c1 := if f.category.Some? then ["category = '" + f.category.value + "'"] else [];
    var c2 := if f.location.Some? then ["location = '" + f.location.value + "'"] else [];
    var c3 := if HasPriceBound(f) then [PriceClause(f.minPrice, f.maxPrice)] else [];
    var c4 := if f.isActive.Some? then ["is_active = " + BoolLiteral(f.isActive.value)] else [];
    var f1 := if f.category.Some? then ["category"] else [];
    var f2 := if f.location.Some? then ["location"] else [];
    var f3 := if HasPriceBound(f) then ["price"] else [];
    var f4 := if f.isActive.Some? then ["is_active"] else [];
    assert FilterParts(f) == c1 + c2 + c3 + c4;
    assert PresentFields(f) == f1 + f2 + f3 + f4;
    if f.category.Some? {
      QuotedClausePrefixed("category", f.category.value);
    }
    if f.location.Some? {
      QuotedClausePrefixed("location", f.location.value);
    }
    if HasPriceBound(f) {
      PriceClausePrefixed(f.minPrice, f.maxPrice);
    }
    if f.isActive.Some? {
      assert StartsWith(c4[0], "is_active" + " ");
    }
    PrefixedAppend(c1, f1, c2, f2);
    PrefixedAppend(c1 + c2, f1 + f2, c3, f3);
    PrefixedAppend(c1 + c2 + c3, f1 + f2 + f3, c4, f4);
    PresentFieldsFilterable(f);
  }

  lemma PresentFieldsFilterable(f: FilterMap)
    ensures forall field :: field in PresentFields(f) ==> field in FilterableAttributes
  {
  }

  lemma QuotedClausePrefixed(field: string, v: string)
    ensures StartsWith(field + " = '" + v + "'", field + " ")
  {
    assert field + " = '" + v + "'" == (field + " ") + ("= '" + v + "'");
  }

  lemma PriceClausePrefixed(min: Option<int>, max: Option<int>)
    requires min.Some? || max.Some?
    ensures StartsWith(PriceClause(min, max), "price" + " ")
  {
    if min.Some? && max.Some? {
      var m, n := IntToString(min.value), IntToString(max.value);
      BothBounds(min.value, max.value);
      LiteralPrefix("price ", ">= ", m + " AND price <= " + n);
    } else if min.Some? {
      MinimumOnly(min.value);
      LiteralPrefix("price ", ">= ", IntToString(min.value));
    } else {
      MaximumOnly(max.value);
      LiteralPrefix("price ", "<= ", IntToString(max.value));
    }
  }

  lemma LiteralPrefix(p: string, op: string, rest: string)
    ensures StartsWith(p + op + rest, p)
  {
  }

  /** Clause i opens with field i followed by a space. */
  predicate Prefixed(parts: seq<string>, fields: seq<string>) {
    |parts| == |fields| && forall i :: 0 <= i < |parts| ==> StartsWith(parts[i], fields[i] + " ")
  }

  lemma PrefixedAppend(ps: seq<string>, fs: seq<string>, qs: seq<string>, gs: seq<string>)
    requires Prefixed(ps, fs) && Prefixed(qs, gs)
    ensures Prefixed(ps + qs, fs + gs)
  {
    forall i | 0 <= i < |ps + qs| ensures StartsWith((ps + qs)[i], (fs + gs)[i] + " ") {
      if i >= |ps| {
        assert (ps + qs)[i] == qs[i - |ps|] && (fs + gs)[i] == gs[i - |ps|];
      }
    }
  }

  /** When present, the is_active clause closes the expression. */
  lemma FilterStringEndsWithActiveFlag(f: FilterMap)
    requires f.isActive.Some?
    ensures EndsWith(FilterString(f), "is_active = " + BoolLiteral(f.isActive.value))
  {
    var parts := FilterParts(f);
    assert parts[|parts| - 1] == "is_active = " + BoolLiteral(f.isActive.value);
    ImplodeEndsWithLast(" AND ", parts);
  }

  /**
   * Values are pasted between single quotes unescaped, so a category holding a
   * quote produces the same expression as a category-and-location filter.
   */
  lemma UnescapedQuoteCollides(a: string, b: string)
    ensures var injected := FilterMap(Some(a + "' AND location = '" + b), None, None, None, None);
      var plain := FilterMap(Some(a), Some(b), None, None, None);
      injected != plain && FilterString(injected) == FilterString(plain)
  {
    var injected := FilterMap(Some(a + "' AND location = '" + b), None, None, None, None);
    var plain := FilterMap(Some(a), Some(b), None, None, None);
    var first, second := "category = '" + a + "'", "location = '" + b + "'";
    var whole := "category = '" + (a + "' AND location = '" + b) + "'";
    assert FilterParts(injected) == [whole];
    assert FilterString(injected) == whole;
    var parts := FilterParts(plain);
    assert parts == [first, second];
    assert parts[1..] == [second];
    assert Implode(" AND ", [second]) == second;
    assert Implode(" AND ", parts) == parts[0] + " AND " + Implode(" AND ", parts[1..]);
    assert FilterString(plain) == first + " AND " + second;
    assert "' AND location = '" == "'" + " AND " + "location = '";
    Regroup("category = '", a, "'", " AND ", "location = '", b);
  }

  lemma Regroup(x: string, a: string, q: string, and: string, l: string, b: string)
    ensures x + (a + (q + and + l) + b) + q == (x + a + q) + and + (l + b + q)
  {
  }

  // ---------------------------------------------------------------------
  // Search options (`search`)
  // ---------------------------------------------------------------------

  /** A value in a Meilisearch options array. */
  datatype OptionValue = IntValue(n: int) | TextValue(text: string) | ListValue(items: seq<string>)

  type Options = map<string, OptionValue>

  const DefaultSearchOptions: Options := map[
    "limit" := IntValue(15),
    "offset" := IntValue(0),
    "attributesToRetrieve" := ListValue(["*"]),
    "attributesToHighlight" := ListValue(["title", "content", "description"]),
    "highlightPreTag" := TextValue("<mark>"),
    "highlightPostTag" := TextValue("</mark>")]

  /** `empty($filters)`. */
  predicate IsEmptyFilters(f: FilterMap) {
    f == NoFilters
  }

  /**
   * What `search` sends: the defaults overridden by the caller's options, and
   * a `filter` entry exactly when some filter is given.
   */
  ghost predicate MergedOptions(filters: FilterMap, options: Options, merged: Options) {
    && merged.Keys == DefaultSearchOptions.Keys + options.Keys + (if IsEmptyFilters(filters) then {} else {"filter"})
    && (forall k :: k in options && (k != "filter" || IsEmptyFilters(filters)) ==> merged[k] == options[k])
    && (forall k :: k in DefaultSearchOptions && k !in options ==> merged[k] == DefaultSearchOptions[k])
    && (!IsEmptyFilters(filters) ==> merged["filter"] == TextValue(FilterString(filters)))
  }

  /** `array_merge` of the defaults with the caller's options, then the conditional filter. */
  method MergeSearchOptions(filters: FilterMap, options: Options) returns (searchOptions: Options)
    ensures MergedOptions(filters, options, searchOptions)
  {
    searchOptions := DefaultSearchOptions + options;
    if !IsEmptyFilters(filters) {
      var filter := BuildFilterString(filters);
      searchOptions := searchOptions["filter" := TextValue(filter)];
    }
  }

  /** Limit 15 and offset 0 unless the caller overrides them. */
  lemma MergedDefaults(filters: FilterMap, options: Options, merged: Options)
    requires MergedOptions(filters, options, merged)
    ensures "limit" in options ==> merged["limit"] == options["limit"]
    ensures "limit" !in options ==> merged["limit"] == IntValue(15)
    ensures "offset" !in options ==> merged["offset"] == IntValue(0)
    ensures "filter" in merged <==> !IsEmptyFilters(filters) || "filter" in options
  {
  }

  /** What the engine answers to a search. */
  datatype EngineReply = EngineReply(
    hits: seq<Document>,
    totalHits: int,
    processingTimeMs: int,
    facetDistribution: Option<Facets>)

  type Facets = map<string, map<string, int>>

  /** Anything the client throws: unreachable engine, timeout, missing index, bad request. */
  datatype IndexError = IndexUnavailable

  /** The engine's search endpoint, as seen from this code: a query and options in, a reply or a failure out. */
  type SearchEngine = (string, Options) -> Result<EngineReply, IndexError>

  /** The array `search` returns. */
  datatype SearchResults = SearchResults(
    hits: seq<Document>,
    total: int,
    query: string,
    processingTime: int,
    facetDistribution: Facets)

  /**
   * `search`: sends the merged options and repackages the reply; a missing
   * facet distribution becomes empty, a failure is passed on.
   */
  method Search(query: string, filters: FilterMap, options: Options, engine: SearchEngine)
    returns (sent: Options, r: Result<SearchResults, IndexError>)
    ensures MergedOptions(filters, options, sent)
    ensures engine(query, sent).Err? <==> r.Err?
    ensures r.Ok? ==> var reply := engine(query, sent).value;
      && r.value.hits == reply.hits && r.value.total == reply.totalHits && r.value.query == query
      && r.value.processingTime == reply.processingTimeMs
      && r.value.facetDistribution == reply.facetDistribution.GetOr(map[])
  {
    sent := MergeSearchOptions(filters, options);
    var results := engine(query, sent);
    if results.Err? {
      return sent, Err(results.error);
    }
    var reply := results.value;
    r := Ok(SearchResults(reply.hits, reply.totalHits, query, reply.processingTimeMs,
      reply.facetDistribution.GetOr(map[])));
  }

  // ---------------------------------------------------------------------
  // Suggestions (`getSuggestions`)
  // ---------------------------------------------------------------------

  /** A hit restricted to the retrieved attributes title, category and location. */
  datatype SuggestionHit = SuggestionHit(title: string, category: Option<string>, location: Option<string>)

  /** The field a suggestion was drawn from. */
  datatype SuggestionKind = TitleKind | CategoryKind | LocationKind

  datatype Suggestion = Suggestion(kind: SuggestionKind, value: string, category: Option<string>, location: Option<string>)

  /** The engine's search endpoint as `getSuggestions` calls it: a query and a limit. */
  type SuggestionEngine = (string, nat) -> Result<seq<SuggestionHit>, IndexError>

  function ToSuggestion(hit: SuggestionHit): Suggestion {
    Suggestion(TitleKind, hit.title, hit.category, hit.location)
  }

  /** `unique('value')`: keeps each value's first entry and drops the later ones. */
  function UniqueByValue(s: seq<Suggestion>, seen: set<string>): seq<Suggestion>
    decreases |s|
  {
    if |s| == 0 then []
    else if s[0].value in seen then UniqueByValue(s[1..], seen)
    else [s[0]] + UniqueByValue(s[1..], seen + {s[0].value})
  }

  ghost function Values(s: seq<Suggestion>): set<string> {
    set x | x in s :: x.value
  }

  /** Every kept entry comes from the input and has a value not seen before. */
  lemma {:induction false} UniqueByValueSound(s: seq<Suggestion>, seen: set<string>)
    ensures forall x :: x in UniqueByValue(s, seen) ==> x in s && x.value !in seen
    decreases |s|
  {
    if |s| > 0 {
      if s[0].value in seen {
        UniqueByValueSound(s[1..], seen);
      } else {
        UniqueByValueSound(s[1..], seen + {s[0].value});
      }
    }
  }

  predicate DistinctValues(r: seq<Suggestion>) {
    forall i, j :: 0 <= i < j < |r| ==> r[i].value != r[j].value
  }

  /** Entry `x` is the first entry of `s` with its value. */
  ghost predicate FirstWithValue(s: seq<Suggestion>, x: Suggestion) {
    exists k :: 0 <= k < |s| && x == s[k] && forall j :: 0 <= j < k ==> s[j].value != s[k].value
  }

  /** No two kept entries share a value. */
  lemma {:induction false} UniqueByValueDistinct(s: seq<Suggestion>, seen: set<string>)
    ensures DistinctValues(UniqueByValue(s, seen))
    decreases |s|
  {
    if |s| > 0 {
      if s[0].value in seen {
        assert UniqueByValue(s, seen) == UniqueByValue(s[1..], seen);
        UniqueByValueDistinct(s[1..], seen);
      } else {
        var rest := UniqueByValue(s[1..], seen + {s[0].value});
        UniqueByValueDistinct(s[1..], seen + {s[0].value});
        UniqueByValueSound(s[1..], seen + {s[0].value});
        var r := [s[0]] + rest;
        assert UniqueByValue(s, seen) == r;
        forall i, j | 0 <= i < j < |r| ensures r[i].value != r[j].value {
          if i == 0 {
            assert r[j] == rest[j - 1] && rest[j - 1] in rest;
            assert r[j].value !in seen + {s[0].value};
          } else {
            assert r[i] == rest[i - 1] && r[j] == rest[j - 1];
          }
        }
      }
    }
  }

  /** Every value of the input that was not already seen is kept once. */
  lemma {:induction false} UniqueByValueComplete(s: seq<Suggestion>, seen: set<string>)
    ensures Values(UniqueByValue(s, seen)) == Values(s) - seen
    decreases |s|
  {
    if |s| > 0 {
      assert s == [s[0]] + s[1..];
      assert Values(s) == {s[0].value} + Values(s[1..]);
      if s[0].value in seen {
        UniqueByValueComplete(s[1..], seen);
      } else {
        var rest := UniqueByValue(s[1..], seen + {s[0].value});
        UniqueByValueComplete(s[1..], seen + {s[0].value});
        assert Values([s[0]] + rest) == {s[0].value} + Values(rest);
      }
    }
  }

  /** Each kept entry is the first entry of the input carrying its value. */
  lemma {:induction false} UniqueByValueKeepsFirst(s: seq<Suggestion>, seen: set<string>)
    ensures forall x :: x in UniqueByValue(s, seen) ==> FirstWithValue(s, x)
    decreases |s|
  {
    if |s| > 0 {
      var seen' := if s[0].value in seen then seen else seen + {s[0].value};
      var rest := UniqueByValue(s[1..], seen');
      UniqueByValueKeepsFirst(s[1..], seen');
      UniqueByValueSound(s[1..], seen');
      forall x | x in UniqueByValue(s, seen) ensures FirstWithValue(s, x) {
        if s[0].value !in seen && x == s[0] {
          assert s[0] == s[0];
        } else {
          assert UniqueByValue(s, seen) == (if s[0].value in seen then rest else [s[0]] + rest);
          assert x in rest;
          assert FirstWithValue(s[1..], x);
          var k' :| 0 <= k' < |s[1..]| && x == s[1..][k'] && forall j :: 0 <= j < k' ==> s[1..][j].value != s[1..][k'].value;
          var k := k' + 1;
          forall j | 0 <= j < k ensures s[j].value != s[k].value {
            if j > 0 {
              assert s[j] == s[1..][j - 1];
            } else if s[0].value !in seen {
              assert x.value !in seen';
            } else {
              assert x.value !in seen';
            }
          }
        }
      }
    }
  }

  /** `idx` places the entries of `r` at strictly increasing positions of `s`. */
  ghost predicate Embeds<T>(r: seq<T>, s: seq<T>, idx: seq<int>) {
    && |idx| == |r|
    && (forall i :: 0 <= i < |idx| ==> 0 <= idx[i] < |s| && r[i] == s[idx[i]])
    && (forall i, j :: 0 <= i < j < |idx| ==> idx[i] < idx[j])
  }

  /** The kept entries appear in the same relative order as in the input (hit order is preserved). */
  lemma {:induction false} UniqueByValueInOrder(s: seq<Suggestion>, seen: set<string>)
    ensures exists idx :: Embeds(UniqueByValue(s, seen), s, idx)
    decreases |s|
  {
    if |s| == 0 {
      assert Embeds(UniqueByValue(s, seen), s, []);
    } else {
      var seen' := if s[0].value in seen then seen else seen + {s[0].value};
      var rest := UniqueByValue(s[1..], seen');
      UniqueByValueInOrder(s[1..], seen');
      var idx :| Embeds(rest, s[1..], idx);
      EmbedsInTail(rest, s, idx);
      EmbedsWithHead(rest, s, idx);
      if s[0].value in seen {
        assert UniqueByValue(s, seen) == rest;
        assert Embeds(UniqueByValue(s, seen), s, Shift(idx));
      } else {
        assert UniqueByValue(s, seen) == [s[0]] + rest;
        assert Embeds(UniqueByValue(s, seen), s, [0] + Shift(idx));
      }
    }
  }

  function Shift(idx: seq<int>): (r: seq<int>)
    ensures |r| == |idx| && forall k :: 0 <= k < |idx| ==> r[k] == idx[k] + 1
  {
    seq(|idx|, k requires 0 <= k < |idx| => idx[k] + 1)
  }

  lemma EmbedsInTail<T>(r: seq<T>, s: seq<T>, idx: seq<int>)
    requires |s| > 0 && Embeds(r, s[1..], idx)
    ensures Embeds(r, s, Shift(idx))
  {
    forall i | 0 <= i < |idx| ensures r[i] == s[Shift(idx)[i]] {
      assert s[1..][idx[i]] == s[idx[i] + 1];
    }
  }

  lemma EmbedsWithHead<T>(r: seq<T>, s: seq<T>, idx: seq<int>)
    requires |s| > 0 && Embeds(r, s, Shift(idx))
    requires forall i :: 0 <= i < |idx| ==> idx[i] >= 0
    ensures Embeds([s[0]] + r, s, [0] + Shift(idx))
  {
    var r', idx' := [s[0]] + r, [0] + Shift(idx);
    forall i | 0 < i < |idx'| ensures r'[i] == s[idx'[i]] {
      assert r'[i] == r[i - 1] && idx'[i] == Shift(idx)[i - 1];
    }
  }

  /** `take(n)` for a non-negative n: the first n entries, or all of them when there are fewer. */
  function Take<T>(s: seq<T>, n: nat): (r: seq<T>)
    ensures |r| <= n && r <= s
    ensures |s| <= n ==> r == s
    ensures |s| > n ==> |r| == n
  {
    if |s| <= n then s else s[..n]
  }

  /** The hits mapped to title entries, one per hit. */
  function TitleEntries(hits: seq<SuggestionHit>): (r: seq<Suggestion>)
    ensures |r| == |hits| && forall i :: 0 <= i < |hits| ==> r[i] == ToSuggestion(hits[i])
  {
    if |hits| == 0 then [] else TitleEntries(hits[..|hits| - 1]) + [ToSuggestion(hits[|hits| - 1])]
  }

  /** `getSuggestions` after the engine answered: map to title entries, dedup by value, take `limit`. */
  function SuggestionsFromHits(hits: seq<SuggestionHit>, limit: nat): seq<Suggestion> {
    Take(UniqueByValue(TitleEntries(hits), {}), limit)
  }

  /**
   * At most `limit` entries, values pairwise distinct, every entry a title entry
   * carrying some hit's title, category and location.
   */
  lemma SuggestionsFromHitsShape(hits: seq<SuggestionHit>, limit: nat)
    ensures var r := SuggestionsFromHits(hits, limit);
      && |r| <= limit
      && DistinctValues(r)
      && (forall i :: 0 <= i < |r| ==> r[i].kind == TitleKind)
      && (forall i :: 0 <= i < |r| ==> exists k :: 0 <= k < |hits| && r[i] == ToSuggestion(hits[k]))
  {
    var mapped := TitleEntries(hits);
    var u := UniqueByValue(mapped, {});
    var r := Take(u, limit);
    UniqueByValueSound(mapped, {});
    UniqueByValueDistinct(mapped, {});
    forall i | 0 <= i < |r|
      ensures r[i].kind == TitleKind
      ensures exists k :: 0 <= k < |hits| && r[i] == ToSuggestion(hits[k])
    {
      assert r[i] == u[i] && u[i] in u;
      var k :| 0 <= k < |mapped| && mapped[k] == u[i];
    }
  }

  /** `getSuggestions`: the engine call, then the post-processing; failures are passed on. */
  method GetSuggestions(query: string, limit: nat, engine: SuggestionEngine)
    returns (r: Result<seq<Suggestion>, IndexError>)
    ensures engine(query, limit).Err? <==> r.Err?
    ensures r.Ok? ==> r.value == SuggestionsFromHits(engine(query, limit).value, limit)
  {
    var results := engine(query, limit);
    if results.Err? {
      return Err(results.error);
    }
    r := Ok(SuggestionsFromHits(results.value, limit));
  }

  // ---------------------------------------------------------------------
  // Index documents (`formatAdvertisementForIndexing`)
  // ---------------------------------------------------------------------

  /** The document stored in the index for one advertisement, keyed by `id`. */
  datatype Document = Document(
    id: nat,
    title: string,
    description: string,
    content: string,
    category: Option<string>,
    location: Option<string>,
    price: Option<int>,
    contactEmail: Option<string>,
    contactPhone: Option<string>,
    tags: Option<seq<string>>,
    isActive: bool,
    expiresAt: Option<int>,
    createdAt: int,
    updatedAt: int)

  function ToDocument(ad: Advertisement): (d: Document)
    ensures d.id == ad.id
    ensures d.expiresAt.None? <==> ad.expiresAt.None?
  {
    Document(ad.id, ad.title, ad.description, ad.content, ad.category, ad.location, ad.price,
      ad.contactEmail, ad.contactPhone, ad.tags, ad.isActive, ad.expiresAt, ad.createdAt, ad.updatedAt)
  }

  /** Reading a document back as a record. */
  function FromDocument(d: Document): Advertisement {
    Advertisement(d.id, d.title, d.description, d.content, d.category, d.location, d.price,
      d.contactEmail, d.contactPhone, d.tags, d.isActive, d.expiresAt, d.createdAt, d.updatedAt)
  }

  /** The document is a lossless copy of the record: every field comes back unchanged. */
  lemma DocumentRoundTrip(ad: Advertisement)
    ensures FromDocument(ToDocument(ad)) == ad
  {
  }
}
