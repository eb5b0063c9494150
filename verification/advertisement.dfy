/**
 * The advertisement record (app/Models/Advertisement.php): its query
 * scopes as predicates over a record, the expiry test, the relevance
 * scorer, and the query builder that the scopes extend step by step.
 */
module Listings {
  import opened Wrappers
  import opened Text

  /** One row of the advertisements table; nullable columns are Options, times are instants. */
  datatype Advertisement = Advertisement(
    id: nat,
    title: string,
    description: string,
    content: string,
    category: Option<string>,
    location: Option<string>,
    price: Option<int>,
    contactEmail: Option<string>,
    contactPhone: Option<string>,
    tags: Option<seq<string>>,  // the JSON `tags` column cast to an array; None when it is not one
    isActive: bool,
    expiresAt: Option<int>,
    createdAt: int,
    updatedAt: int)

  // ---------------------------------------------------------------------
  // Scopes and the expiry test
  // ---------------------------------------------------------------------

  /** `scopeActive`: the active flag is set and the record has no expiry or expires after `now`. */
  predicate IsActiveAt(ad: Advertisement, now: int): (r: bool)
    ensures r ==> ad.isActive && !IsExpired(ad, now)
    ensures ad.expiresAt == Some(now) ==> !r
  {
    ad.isActive && (ad.expiresAt.None? || ad.expiresAt.value > now)
  }

  /** `isExpired`: an expiry instant exists and lies strictly in the past. */
  predicate IsExpired(ad: Advertisement, now: int): (r: bool)
    ensures ad.expiresAt.None? ==> !r
    ensures ad.expiresAt == Some(now) ==> !r
  {
    ad.expiresAt.Some? && ad.expiresAt.value < now
  }

  /** One `orWhere` group of `scopeSearch`: a LIKE hit on a text column or an exact tag. */
  predicate WordHit(ad: Advertisement, w: string): (r: bool)
    ensures w == "" ==> r
    ensures ad.tags.Some? && w in ad.tags.value ==> r
  {
    || ContainsCI(ad.title, w)
    || ContainsCI(ad.content, w)
    || ContainsCI(ad.description, w)
    || (ad.category.Some? && ContainsCI(ad.category.value, w))
    || (ad.location.Some? && ContainsCI(ad.location.value, w))
    || (ad.tags.Some? && w in ad.tags.value)
  }

  /** The words `scopeSearch` looks for: the trimmed term split on single spaces. */
  function SearchWords(term: string): seq<string> {
    SplitOnSpace(Trim(term))
  }

  /** `scopeSearch`: an empty term (PHP `empty`) admits everything, otherwise some word must hit. */
  predicate MatchesSearch(ad: Advertisement, term: string): (r: bool)
    ensures PhpEmpty(term) ==> r
  {
    PhpEmpty(term) || AnyWordHits(ad, SearchWords(term))
  }

  predicate AnyWordHits(ad: Advertisement, words: seq<string>) {
    exists i :: 0 <= i < |words| && WordHit(ad, words[i])
  }

  /** A term that trims to a single word is matched exactly by the records that word hits. */
  lemma SingleWordTermMatches(ad: Advertisement, term: string)
    requires ' ' !in Trim(term)
    ensures !PhpEmpty(term) ==> (MatchesSearch(ad, term) <==> WordHit(ad, Trim(term)))
  {
    SplitWithoutSpace(Trim(term));
    var words := SearchWords(term);
    assert words == [Trim(term)];
    if AnyWordHits(ad, words) {
      var i :| 0 <= i < |words| && WordHit(ad, words[i]);
      assert i == 0;
    }
    if WordHit(ad, Trim(term)) {
      assert WordHit(ad, words[0]);
    }
  }

  /** `scopeCategory`: SQL equality, which a NULL category never satisfies. */
  predicate InCategory(ad: Advertisement, category: string): (r: bool)
    ensures ad.category.None? ==> !r
    ensures r ==> ad.category.value == category
  {
    ad.category == Some(category)
  }

  /** `scopeLocation`: `location LIKE %l%`, which a NULL location never satisfies. */
  predicate InLocation(ad: Advertisement, location: string): (r: bool)
    ensures ad.location.None? ==> !r
    ensures ad.location.Some? && location == "" ==> r
  {
    ad.location.Some? && ContainsCI(ad.location.value, location)
  }

  /** `scopePriceRange`: each supplied bound holds; a NULL price fails any bound. */
  predicate InPriceRange(ad: Advertisement, min: Option<int>, max: Option<int>): (r: bool)
    ensures min.None? && max.None? ==> r
    ensures (min.Some? || max.Some?) && ad.price.None? ==> !r
    ensures r && min.Some? && max.Some? ==> min.value <= max.value
  {
    && (min.Some? ==> ad.price.Some? && min.value <= ad.price.value)
    && (max.Some? ==> ad.price.Some? && ad.price.value <= max.value)
  }

  /** An admitted record is never expired, and at its expiry instant it is neither. */
  lemma ActiveIsNotExpired(ad: Advertisement, now: int)
    ensures IsActiveAt(ad, now) ==> !IsExpired(ad, now)
    ensures ad.expiresAt == Some(now) ==> !IsActiveAt(ad, now) && !IsExpired(ad, now)
    ensures ad.isActive && !IsExpired(ad, now) && ad.expiresAt != Some(now) ==> IsActiveAt(ad, now)
  {
  }

  // ---------------------------------------------------------------------
  // Relevance score
  // ---------------------------------------------------------------------

  function Points(hit: bool, weight: nat): nat {
    if hit then weight else 0
  }

  /** How many tags contain `w`, ignoring ASCII case. */
  function TagHits(tags: seq<string>, w: string): (n: nat)
    ensures n <= |tags|
    decreases |tags|
  {
    if |tags| == 0 then 0
    else TagHits(tags[..|tags| - 1], w) + Points(ContainsCI(tags[|tags| - 1], w), 1)
  }

  function TagCount(ad: Advertisement): nat {
    if ad.tags.Some? then |ad.tags.value| else 0
  }

  /** The points one word earns on the five text fields (null ones read as ""). */
  function FieldPoints(ad: Advertisement, w: string): nat {
    Points(ContainsCI(ad.title, w), 10)
    + Points(ContainsCI(ad.content, w), 5)
    + Points(ContainsCI(ad.description, w), 3)
    + Points(ContainsCI(ad.category.GetOr(""), w), 3)
    + Points(ContainsCI(ad.location.GetOr(""), w), 3)
  }

  /** The points one word earns: its field points plus one per matching tag. */
  function WordScore(ad: Advertisement, w: string): nat {
    FieldPoints(ad, w) + (if ad.tags.Some? then TagHits(ad.tags.value, w) else 0)
  }

  function ScoreWords(ad: Advertisement, words: seq<string>): nat
    decreases |words|
  {
    if |words| == 0 then 0
    else ScoreWords(ad, words[..|words| - 1]) + WordScore(ad, words[|words| - 1])
  }

  /** The words the scorer iterates over: the lower-cased term exploded on ' '. */
  function ScoreWordsOf(term: string): seq<string> {
    SplitOnSpace(Lower(term))
  }

  /** `getSearchRelevanceScore` as a value: the sum of the word scores. */
  function Score(ad: Advertisement, term: string): nat {
    ScoreWords(ad, ScoreWordsOf(term))
  }

  /** `getSearchRelevanceScore`: the nested loops over words and tags. */
  method RelevanceScore(ad: Advertisement, searchTerm: string) returns (score: int)
    ensures score == Score(ad, searchTerm)
  {
    score := 0;
    var words := SplitOnSpace(Lower(searchTerm));
    var i := 0;
    while i < |words|
      invariant 0 <= i <= |words|
      invariant score == ScoreWords(ad, words[..i])
    {
      var word := words[i];
      ghost var before := score;
      if ContainsCI(ad.title, word) {
        score := score + 10;
      }
      assert score == before + Points(ContainsCI(ad.title, word), 10);
      if ContainsCI(ad.content, word) {
        score := score + 5;
      }
      assert score == before + Points(ContainsCI(ad.title, word), 10) + Points(ContainsCI(ad.content, word), 5);
      if ContainsCI(ad.description, word) {
        score := score + 3;
      }
      ghost var mid := score;
      if ContainsCI(ad.category.GetOr(""), word) {
        score := score + 3;
      }
      assert score == mid + Points(ContainsCI(ad.category.GetOr(""), word), 3);
      if ContainsCI(ad.location.GetOr(""), word) {
        score := score + 3;
      }
      assert score == before + FieldPoints(ad, word);
      if ad.tags.Some? {
        var tags := ad.tags.value;
        var j := 0;
        while j < |tags|
          invariant 0 <= j <= |tags|
          invariant score == ScoreWords(ad, words[..i]) + FieldPoints(ad, word) + TagHits(tags[..j], word)
        {
          if ContainsCI(tags[j], word) {
            score := score + 1;
          }
          assert tags[..j + 1][..j] == tags[..j];
          j := j + 1;
        }
        assert tags[..j] == tags;
      }
      assert words[..i + 1][..i] == words[..i];
      i := i + 1;
    }
    assert words[..i] == words;
  }

  lemma {:induction false} ScoreWordsAppend(ad: Advertisement, xs: seq<string>, ys: seq<string>)
    ensures ScoreWords(ad, xs + ys) == ScoreWords(ad, xs) + ScoreWords(ad, ys)
    decreases |ys|
  {
    if |ys| == 0 {
      assert xs + ys == xs;
    } else {
      var ys' := ys[..|ys| - 1];
      assert (xs + ys)[..|xs + ys| - 1] == xs + ys';
      ScoreWordsAppend(ad, xs, ys');
    }
  }

  /** The score is additive over the space-separated parts of the query. */
  lemma ScoreAdditive(ad: Advertisement, a: string, b: string)
    ensures Score(ad, a + " " + b) == Score(ad, a) + Score(ad, b)
  {
    LowerAppend(a, " " + b);
    LowerAppend(" ", b);
    assert a + " " + b == a + (" " + b);
    assert Lower(a) + " " + Lower(b) == Lower(a) + (Lower(" ") + Lower(b));
    SplitAppend(Lower(a), Lower(b));
    ScoreWordsAppend(ad, ScoreWordsOf(a), ScoreWordsOf(b));
  }

  /** Each word earns at most 10 + 5 + 3 + 3 + 3 points plus one per tag. */
  lemma WordScoreBound(ad: Advertisement, w: string)
    ensures WordScore(ad, w) <= 24 + TagCount(ad)
  {
  }

  lemma {:induction false} ScoreWordsBound(ad: Advertisement, words: seq<string>)
    ensures ScoreWords(ad, words) <= |words| * (24 + TagCount(ad))
    decreases |words|
  {
    if |words| > 0 {
      var n, k := |words| - 1, 24 + TagCount(ad);
      ScoreWordsBound(ad, words[..n]);
      WordScoreBound(ad, words[n]);
      assert (n + 1) * k == n * k + k;
    }
  }

  /** Lower-casing maps the space-split pieces one to one. */
  lemma {:induction false} SplitLower(s: string)
    ensures |SplitOnSpace(Lower(s))| == |SplitOnSpace(s)|
    ensures forall i :: 0 <= i < |SplitOnSpace(s)| ==> SplitOnSpace(Lower(s))[i] == Lower(SplitOnSpace(s)[i])
    decreases |s|
  {
    if |s| > 0 {
      SplitLower(s[1..]);
      var l := Lower(s);
      assert l[1..] == Lower(s[1..]);
      assert l[0] == LowerChar(s[0]);
      if s[0] == ' ' {
        SplitLowerAtSpace(s);
      } else {
        SplitLowerAtLetter(s);
      }
    }
  }

  lemma SplitLowerAtSpace(s: string)
    requires |s| > 0 && s[0] == ' '
    requires |SplitOnSpace(Lower(s[1..]))| == |SplitOnSpace(s[1..])|
    requires forall i :: 0 <= i < |SplitOnSpace(s[1..])| ==> SplitOnSpace(Lower(s[1..]))[i] == Lower(SplitOnSpace(s[1..])[i])
    ensures |SplitOnSpace(Lower(s))| == |SplitOnSpace(s)|
    ensures forall i :: 0 <= i < |SplitOnSpace(s)| ==> SplitOnSpace(Lower(s))[i] == Lower(SplitOnSpace(s)[i])
  {
    var l := Lower(s);
    assert l[0] == ' ' && l[1..] == Lower(s[1..]);
    var t, lt := SplitOnSpace(s[1..]), SplitOnSpace(l[1..]);
    assert SplitOnSpace(s) == [""] + t;
    assert SplitOnSpace(l) == [""] + lt;
    assert Lower("") == "";
  }

  lemma SplitLowerAtLetter(s: string)
    requires |s| > 0 && s[0] != ' '
    requires |SplitOnSpace(Lower(s[1..]))| == |SplitOnSpace(s[1..])|
    requires forall i :: 0 <= i < |SplitOnSpace(s[1..])| ==> SplitOnSpace(Lower(s[1..]))[i] == Lower(SplitOnSpace(s[1..])[i])
    ensures |SplitOnSpace(Lower(s))| == |SplitOnSpace(s)|
    ensures forall i :: 0 <= i < |SplitOnSpace(s)| ==> SplitOnSpace(Lower(s))[i] == Lower(SplitOnSpace(s)[i])
  {
    var l := Lower(s);
    var c := LowerChar(s[0]);
    assert l == [c] + Lower(s[1..]);
    SplitAtLetter(s[0], s[1..]);
    SplitAtLetter(c, Lower(s[1..]));
    var t, lt := SplitOnSpace(s[1..]), SplitOnSpace(Lower(s[1..]));
    LowerAppend([s[0]], t[0]);
    assert Lower([s[0]]) == [c];
    forall i | 0 <= i < |SplitOnSpace(s)| ensures SplitOnSpace(l)[i] == Lower(SplitOnSpace(s)[i]) {
      if i > 0 {
        assert SplitOnSpace(s)[i] == t[i] && SplitOnSpace(l)[i] == lt[i];
      }
    }
  }

  /** Exploding a string that starts with a letter glues it to the first piece. */
  lemma SplitAtLetter(c: char, rest: string)
    requires c != ' '
    ensures SplitOnSpace([c] + rest) == [[c] + SplitOnSpace(rest)[0]] + SplitOnSpace(rest)[1..]
  {
    assert ([c] + rest)[1..] == rest;
  }

  /** A query of n space-separated words scores at most n * (24 + number of tags). */
  lemma ScoreBound(ad: Advertisement, term: string)
    ensures Score(ad, term) <= |SplitOnSpace(term)| * (24 + TagCount(ad))
  {
    SplitLower(term);
    ScoreWordsBound(ad, ScoreWordsOf(term));
  }

  /** The empty word (from doubled or edge spaces) hits every field, null ones included. */
  lemma {:induction false} EmptyWordHitsEverything(ad: Advertisement)
    ensures WordScore(ad, "") == 24 + TagCount(ad)
  {
    if ad.tags.Some? {
      TagHitsEmptyWord(ad.tags.value);
    }
  }

  lemma {:induction false} TagHitsEmptyWord(tags: seq<string>)
    ensures TagHits(tags, "") == |tags|
    decreases |tags|
  {
    if |tags| > 0 {
      TagHitsEmptyWord(tags[..|tags| - 1]);
      assert ContainsCI(tags[|tags| - 1], "");
    }
  }

  /** For a non-empty word, a null category or location and absent tags add nothing. */
  lemma NullFieldsAddNothing(ad: Advertisement, w: string)
    requires w != ""
    ensures WordScore(ad, w) ==
      Points(ContainsCI(ad.title, w), 10)
      + Points(ContainsCI(ad.content, w), 5)
      + Points(ContainsCI(ad.description, w), 3)
      + (if ad.category.Some? then Points(ContainsCI(ad.category.value, w), 3) else 0)
      + (if ad.location.Some? then Points(ContainsCI(ad.location.value, w), 3) else 0)
      + (if ad.tags.Some? then TagHits(ad.tags.value, w) else 0)
  {
    assert |Lower(w)| > 0;
    assert !ContainsCI("", w);
  }

  /** Two records whose text fields and tags agree once lower-cased (null reads as ""). */
  ghost predicate SameUpToCase(a: Advertisement, b: Advertisement) {
    && Lower(a.title) == Lower(b.title)
    && Lower(a.content) == Lower(b.content)
    && Lower(a.description) == Lower(b.description)
    && Lower(a.category.GetOr("")) == Lower(b.category.GetOr(""))
    && Lower(a.location.GetOr("")) == Lower(b.location.GetOr(""))
    && a.tags.Some? == b.tags.Some?
    && (a.tags.Some? ==> SameTagsUpToCase(a.tags.value, b.tags.value))
  }

  ghost predicate SameTagsUpToCase(t: seq<string>, u: seq<string>) {
    |t| == |u| && forall i :: 0 <= i < |t| ==> Lower(t[i]) == Lower(u[i])
  }

  lemma {:induction false} TagHitsIgnoreCase(t: seq<string>, u: seq<string>, w: string)
    requires SameTagsUpToCase(t, u)
    ensures TagHits(t, w) == TagHits(u, w)
    decreases |t|
  {
    if |t| > 0 {
      TagHitsIgnoreCase(t[..|t| - 1], u[..|u| - 1], w);
    }
  }

  lemma {:induction false} ScoreWordsIgnoreCase(a: Advertisement, b: Advertisement, words: seq<string>)
    requires SameUpToCase(a, b)
    ensures ScoreWords(a, words) == ScoreWords(b, words)
    decreases |words|
  {
    if |words| > 0 {
      ScoreWordsIgnoreCase(a, b, words[..|words| - 1]);
      if a.tags.Some? {
        TagHitsIgnoreCase(a.tags.value, b.tags.value, words[|words| - 1]);
      }
    }
  }

  /** Changing the ASCII case of the query or of any field leaves the score unchanged. */
  lemma ScoreIgnoresCase(a: Advertisement, b: Advertisement, q: string, r: string)
    requires SameUpToCase(a, b) && Lower(q) == Lower(r)
    ensures Score(a, q) == Score(b, r)
  {
    ScoreWordsIgnoreCase(a, b, ScoreWordsOf(q));
  }

  /** A lower-case letter of the needle that the haystack lacks in either case rules out a match. */
  lemma AbsentLetterRulesOut(hay: string, needle: string, c: char)
    requires 'a' <= c <= 'z' && c in needle
    requires c !in hay && (c as int - 32) as char !in hay
    ensures !ContainsCI(hay, needle)
  {
    var i :| 0 <= i < |needle| && needle[i] == c;
    assert Lower(needle)[i] == c;
    if ContainsCI(hay, needle) {
      ContainedCharsOccur(Lower(hay), Lower(needle), c);
    }
  }

  /** A case-insensitive occurrence at offset k. */
  lemma OccurrenceIgnoringCase(hay: string, needle: string, k: int)
    requires 0 <= k && k + |needle| <= |hay|
    requires forall i :: 0 <= i < |needle| ==> LowerChar(hay[k + i]) == LowerChar(needle[i])
    ensures ContainsCI(hay, needle)
  {
    assert OccursAt(Lower(hay), Lower(needle), k);
    ContainsIffOccurs(Lower(hay), Lower(needle));
  }

  // Single facts about the strings of the worked example, one per lemma so that
  // the solver never holds several literal containments at once.
  lemma GuitarInTitle() ensures ContainsCI("Vintage Guitar", "guitar") {
    OccurrenceIgnoringCase("Vintage Guitar", "guitar", 8);
  }
  lemma MusicNotInTitle() ensures !ContainsCI("Vintage Guitar", "music") {
    AbsentLetterRulesOut("Vintage Guitar", "music", 'm');
  }
  lemma GuitarNotInContent() ensures !ContainsCI("old gibson", "guitar") {
    AbsentLetterRulesOut("old gibson", "guitar", 'u');
  }
  lemma MusicNotInContent() ensures !ContainsCI("old gibson", "music") {
    AbsentLetterRulesOut("old gibson", "music", 'm');
  }
  lemma MusicInTag() ensures ContainsCI("music", "music") {
    OccurrenceIgnoringCase("music", "music", 0);
  }
  lemma GuitarNotInTag() ensures !ContainsCI("music", "guitar") {
    AbsentLetterRulesOut("music", "guitar", 'g');
  }

  lemma SingleTagHits(tag: string, w: string)
    ensures TagHits([tag], w) == Points(ContainsCI(tag, w), 1)
  {
    assert [tag][..0] == [];
  }

  /** No optional or secondary field mentions `w`. */
  predicate OtherFieldsLack(ad: Advertisement, w: string) {
    && !ContainsCI(ad.description, w)
    && !ContainsCI(ad.category.GetOr(""), w)
    && !ContainsCI(ad.location.GetOr(""), w)
  }

  /** The record shape of the worked example. */
  predicate IsGuitarListing(ad: Advertisement) {
    && ad.title == "Vintage Guitar" && ad.content == "old gibson" && ad.tags == Some(["music"])
    && OtherFieldsLack(ad, "guitar") && OtherFieldsLack(ad, "music")
  }

  lemma GuitarWordScore(ad: Advertisement)
    requires IsGuitarListing(ad)
    ensures WordScore(ad, "guitar") == 10
  {
    GuitarInTitle();
    GuitarNotInContent();
    GuitarNotInTag();
    SingleTagHits("music", "guitar");
  }

  lemma MusicWordScore(ad: Advertisement)
    requires IsGuitarListing(ad)
    ensures WordScore(ad, "music") == 1
  {
    MusicNotInTitle();
    MusicNotInContent();
    MusicInTag();
    SingleTagHits("music", "music");
  }

  /**
   * Worked example: title "Vintage Guitar", content "old gibson", tags ["music"]
   * and the query "guitar music" score 10 for the title and 1 for the tag.
   */
  lemma WorkedExampleScore(ad: Advertisement)
    requires IsGuitarListing(ad)
    ensures Score(ad, "guitar music") == 11
  {
    ExampleWords();
    ScoreTwoWords(ad, "guitar", "music");
    GuitarWordScore(ad);
    MusicWordScore(ad);
  }

  lemma ExampleWords()
    ensures ScoreWordsOf("guitar music") == ["guitar", "music"]
  {
    var v, w := "guitar", "music";
    assert "guitar music" == v + " " + w;
    TwoLowerWords(v, w);
  }

  /** Two lower-case words joined by a space are scored as exactly those two words. */
  lemma TwoLowerWords(v: string, w: string)
    requires ' ' !in v && ' ' !in w
    requires forall i :: 0 <= i < |v| ==> !IsUpperAscii(v[i])
    requires forall i :: 0 <= i < |w| ==> !IsUpperAscii(w[i])
    ensures ScoreWordsOf(v + " " + w) == [v, w]
  {
    LowerAppend(v, " " + w);
    LowerAppend(" ", w);
    LowercaseUnchanged(v);
    LowercaseUnchanged(w);
    assert Lower(" ") == " ";
    assert v + " " + w == v + (" " + w);
    assert Lower(v + " " + w) == v + " " + w;
    SplitAppend(v, w);
    SplitWithoutSpace(v);
    SplitWithoutSpace(w);
  }

  lemma ScoreTwoWords(ad: Advertisement, v: string, w: string)
    ensures ScoreWords(ad, [v, w]) == WordScore(ad, v) + WordScore(ad, w)
  {
    var words := [v, w];
    assert words[..1] == [v] && words[..1][..0] == [];
    assert ScoreWords(ad, [v]) == WordScore(ad, v);
  }

  lemma {:induction false} ScoreWordsAtLeast(ad: Advertisement, words: seq<string>, i: int)
    requires 0 <= i < |words|
    ensures ScoreWords(ad, words) >= WordScore(ad, words[i])
    decreases |words|
  {
    if i < |words| - 1 {
      ScoreWordsAtLeast(ad, words[..|words| - 1], i);
    }
  }

  lemma {:induction false} TagHitsPositive(tags: seq<string>, w: string, k: int)
    requires 0 <= k < |tags| && ContainsCI(tags[k], w)
    ensures TagHits(tags, w) > 0
    decreases |tags|
  {
    if k < |tags| - 1 {
      TagHitsPositive(tags[..|tags| - 1], w, k);
    }
  }

  /** A word that `scopeSearch` finds in a record also earns that record points. */
  lemma WordHitScores(ad: Advertisement, w: string)
    requires WordHit(ad, w)
    ensures WordScore(ad, Lower(w)) > 0
  {
    LowerIdempotent(w);
    if ad.tags.Some? && w in ad.tags.value {
      var k :| 0 <= k < |ad.tags.value| && ad.tags.value[k] == w;
      assert Lower(w) <= Lower(w);
      TagHitsPositive(ad.tags.value, Lower(w), k);
    }
  }

  /** Every record a non-empty, already trimmed search admits has a positive score. */
  lemma SearchMatchScoresPositive(ad: Advertisement, term: string)
    requires Trim(term) == term && !PhpEmpty(term) && MatchesSearch(ad, term)
    ensures Score(ad, term) > 0
  {
    var words := SplitOnSpace(term);
    var i :| 0 <= i < |words| && WordHit(ad, words[i]);
    SplitLower(term);
    WordHitScores(ad, words[i]);
    ScoreWordsAtLeast(ad, ScoreWordsOf(term), i);
  }

  /**
   * The converse fails: the scorer counts a tag that merely contains the word,
   * while `scopeSearch` wants a tag equal to it.
   */
  lemma TagSubstringScoresWithoutMatching(ad: Advertisement, w: string, tag: string)
    requires SingleLowerWord(w) && w != tag && ContainsCI(tag, w)
    requires ad.tags == Some([tag])
    requires !ContainsCI(ad.title, w) && !ContainsCI(ad.content, w) && !ContainsCI(ad.description, w)
    requires ad.category.None? && ad.location.None?
    ensures Score(ad, w) > 0 && !MatchesSearch(ad, w)
  {
    SingleWordScored(w);
    TagHitsPositive([tag], w, 0);
    ScoreWordsAtLeast(ad, [w], 0);
    SingleWordSearched(w);
    assert !WordHit(ad, w);
  }

  /** A non-empty lower-case word without spaces or trimmable ends. */
  predicate SingleLowerWord(w: string) {
    && |w| > 0 && ' ' !in w && !IsTrimChar(w[0]) && !IsTrimChar(w[|w| - 1]) && w != "0"
    && forall i :: 0 <= i < |w| ==> !IsUpperAscii(w[i])
  }

  lemma SingleWordScored(w: string)
    requires SingleLowerWord(w)
    ensures ScoreWordsOf(w) == [w]
  {
    LowercaseUnchanged(w);
    SplitWithoutSpace(w);
  }

  lemma SingleWordSearched(w: string)
    requires SingleLowerWord(w)
    ensures SearchWords(w) == [w] && !PhpEmpty(w)
  {
    TrimUntouched(w);
    SplitWithoutSpace(w);
  }

  // ---------------------------------------------------------------------
  // The query builder the scopes extend
  // ---------------------------------------------------------------------

  /** One `where` group a scope adds to a query. */
  datatype Clause =
    | ActiveAt(now: int)
    | AnyWord(words: seq<string>)
    | CategoryIs(category: string)
    | LocationLike(location: string)
    | PriceAtLeast(min: int)
    | PriceAtMost(max: int)

  predicate Holds(c: Clause, ad: Advertisement) {
    match c
    case ActiveAt(now) => IsActiveAt(ad, now)
    case AnyWord(words) => AnyWordHits(ad, words)
    case CategoryIs(category) => InCategory(ad, category)
    case LocationLike(location) => InLocation(ad, location)
    case PriceAtLeast(min) => InPriceRange(ad, Some(min), None)
    case PriceAtMost(max) => InPriceRange(ad, None, Some(max))
  }

  /** The clauses of a query are ANDed. */
  predicate Admits(clauses: seq<Clause>, ad: Advertisement) {
    forall i :: 0 <= i < |clauses| ==> Holds(clauses[i], ad)
  }

  lemma AdmitsAppend(xs: seq<Clause>, ys: seq<Clause>, ad: Advertisement)
    ensures Admits(xs + ys, ad) <==> Admits(xs, ad) && Admits(ys, ad)
  {
    if Admits(xs, ad) && Admits(ys, ad) {
      forall i | 0 <= i < |xs + ys| ensures Holds((xs + ys)[i], ad) {
        if i >= |xs| {
          assert (xs + ys)[i] == ys[i - |xs|];
        }
      }
    }
    if Admits(xs + ys, ad) {
      forall i | 0 <= i < |xs| ensures Holds(xs[i], ad) {
        assert (xs + ys)[i] == xs[i];
      }
      forall i | 0 <= i < |ys| ensures Holds(ys[i], ad) {
        assert (xs + ys)[|xs| + i] == ys[i];
      }
    }
  }

  /** `$query->get()`: the rows of the table, in table order, that satisfy every clause. */
  function Select(table: seq<Advertisement>, clauses: seq<Clause>): (rows: seq<Advertisement>)
    ensures |rows| <= |table|
    ensures forall ad :: ad in rows <==> ad in table && Admits(clauses, ad)
    decreases |table|
  {
    if |table| == 0 then []
    else
      var last := table[|table| - 1];
      Select(table[..|table| - 1], clauses) + (if Admits(clauses, last) then [last] else [])
  }

  /** Queries that admit the same records select the same rows in the same order. */
  lemma {:induction false} SelectAgrees(table: seq<Advertisement>, xs: seq<Clause>, ys: seq<Clause>)
    requires forall ad :: Admits(xs, ad) <==> Admits(ys, ad)
    ensures Select(table, xs) == Select(table, ys)
    decreases |table|
  {
    if |table| > 0 {
      SelectAgrees(table[..|table| - 1], xs, ys);
    }
  }

  /** An ORDER BY the builder accepted: a column and the lower-cased direction. */
  datatype SortSpec = SortSpec(column: string, direction: string)

  /** The directions `orderBy` accepts, compared after lower-casing. */
  predicate ValidDirection(direction: string) {
    Lower(direction) == "asc" || Lower(direction) == "desc"
  }

  /** An Eloquent query over the advertisements table: its where-groups and its ORDER BY. */
  class AdQuery {
    var clauses: seq<Clause>
    var order: Option<SortSpec>

    /** `Advertisement::active()`. */
    constructor Active(now: int)
      ensures order == None
      ensures forall ad :: Admits(clauses, ad) <==> IsActiveAt(ad, now)
    {
      clauses := [ActiveAt(now)];
      order := None;
      new;
      forall ad ensures Admits(clauses, ad) <==> IsActiveAt(ad, now) {
        assert Holds(clauses[0], ad) <==> IsActiveAt(ad, now);
      }
    }

    /** Appends one clause; the admitted records are those that also satisfy it. */
    method Where(c: Clause)
      modifies this
      ensures order == old(order)
      ensures clauses == old(clauses) + [c]
      ensures forall ad :: Admits(clauses, ad) <==> Admits(old(clauses), ad) && Holds(c, ad)
    {
      clauses := clauses + [c];
      forall ad ensures Admits(clauses, ad) <==> Admits(old(clauses), ad) && Holds(c, ad) {
        AdmitsAppend(old(clauses), [c], ad);
        assert Admits([c], ad) <==> Holds([c][0], ad);
      }
    }

    /** `scopeSearch`: an empty term leaves the query alone, otherwise some trimmed word must hit. */
    method Search(searchTerm: string)
      modifies this
      ensures order == old(order)
      ensures PhpEmpty(searchTerm) ==> clauses == old(clauses)
      ensures forall ad :: Admits(clauses, ad) <==> Admits(old(clauses), ad) && MatchesSearch(ad, searchTerm)
    {
      if PhpEmpty(searchTerm) {
        return;
      }
      var term := Trim(searchTerm);
      var words := SplitOnSpace(term);
      Where(AnyWord(words));
    }

    /** `scopeCategory`. */
    method Category(category: string)
      modifies this
      ensures order == old(order)
      ensures forall ad :: Admits(clauses, ad) <==> Admits(old(clauses), ad) && InCategory(ad, category)
    {
      Where(CategoryIs(category));
    }

    /** `scopeLocation`. */
    method Location(location: string)
      modifies this
      ensures order == old(order)
      ensures forall ad :: Admits(clauses, ad) <==> Admits(old(clauses), ad) && InLocation(ad, location)
    {
      Where(LocationLike(location));
    }

    /** `scopePriceRange`: one clause per supplied bound; with no bound the query is unchanged. */
    method PriceRange(minPrice: Option<int>, maxPrice: Option<int>)
      modifies this
      ensures order == old(order)
      ensures minPrice.None? && maxPrice.None? ==> clauses == old(clauses)
      ensures forall ad :: Admits(clauses, ad) <==> Admits(old(clauses), ad) && InPriceRange(ad, minPrice, maxPrice)
    {
      if minPrice.Some? {
        Where(PriceAtLeast(minPrice.value));
      }
      if maxPrice.Some? {
        Where(PriceAtMost(maxPrice.value));
      }
    }

    /**
     * `orderBy`: lower-cases the direction and accepts only "asc" or "desc";
     * any other direction is refused (`ok` false, Laravel's
     * `InvalidArgumentException`) and leaves the query as it was.
     */
    method OrderBy(column: string, direction: string) returns (ok: bool)
      modifies this
      ensures clauses == old(clauses)
      ensures ok <==> ValidDirection(direction)
      ensures ok ==> order == Some(SortSpec(column, Lower(direction)))
      ensures !ok ==> order == old(order)
    {
      var d := Lower(direction);
      if d != "asc" && d != "desc" {
        return false;
      }
      order := Some(SortSpec(column, d));
      ok := true;
    }

    /** `get()`. */
    function Get(table: seq<Advertisement>): seq<Advertisement>
      reads this
    {
      Select(table, clauses)
    }
  }
}
