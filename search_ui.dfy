/** The search page of the MVC site (SearchController): the query string it
    sends to the content API and the choice between a search and the two
    showcases. Uri.EscapeDataString is the parameter `escape`; each API call
    is a parameter from the endpoint to its reply. Ratings are whole numbers,
    written as Int32.ToString writes them. */
module Search {
  import opened Common

  const BooksRoute: string := "api/content/search/books?"
  const MoviesRoute: string := "api/content/search/movies?"
  const TopRatedEndpoint: string := "api/content/top-rated?limit=12"
  const MostPopularEndpoint: string := "api/content/most-popular?limit=12"
  const DefaultContentType: string := "movie"

  /** ApiService.GetAsync: it throws, answers null, or answers a value. */
  datatype ApiReply<T> = Throws | NullBody | Body(value: T)

  datatype ContentCard = ContentCard(id: string, title: string, contentType: string, coverUrl: Option<string>, year: Option<int>)

  datatype SearchView = SearchView(
    query: Option<string>,
    contentType: string,
    genre: Option<string>,
    year: Option<string>,
    minRating: Option<int>,
    availableGenres: seq<string>,
    searchResults: seq<ContentCard>,
    topRated: seq<ContentCard>,
    mostPopular: seq<ContentCard>,
    error: bool)

  // ---------------------------------------------------------------------------
  // BuildSearchEndpoint
  // ---------------------------------------------------------------------------

  /** The route: "book" searches books, anything else, null included, movies. */
  function Route(contentType: Option<string>): string
  {
    if contentType == Some("book") then BooksRoute else MoviesRoute
  }

  /** The parameter list, in the order the method adds them. */
  function SearchParameters(escape: string -> string, query: string, genre: Option<string>, year: Option<string>,
                            minRating: Option<int>): seq<string>
  {
    [Field("q", escape(query))] +
    (if !IsNullOrWhiteSpace(genre) then [Field("genre", escape(genre.value))] else []) +
    (if !IsNullOrWhiteSpace(year) then [Field("year", escape(year.value))] else []) +
    (if minRating.Some? then [Field("minRating", IntToString(minRating.value))] else [])
  }

  method BuildSearchEndpoint(escape: string -> string, query: string, contentType: Option<string>, genre: Option<string>,
                             year: Option<string>, minRating: Option<int>)
    returns (endpoint: string)
    ensures endpoint == Route(contentType) + Join(SearchParameters(escape, query, genre, year, minRating), "&")
  {
    var parameters := [Field("q", escape(query))];
    if !IsNullOrWhiteSpace(genre) {
      parameters := parameters + [Field("genre", escape(genre.value))];
    }
    if !IsNullOrWhiteSpace(year) {
      parameters := parameters + [Field("year", escape(year.value))];
    }
    if minRating.Some? {
      parameters := parameters + [Field("minRating", IntToString(minRating.value))];
    }
    assert parameters == SearchParameters(escape, query, genre, year, minRating);
    var paramString := Join(parameters, "&");
    endpoint := if contentType == Some("book") then BooksRoute + paramString else MoviesRoute + paramString;
  }

  /** How the API reads a query string: the value of the first
      "&"-separated field that starts with `key=`. */
  function ValueOf(fields: seq<string>, key: string): Option<string>
  {
    if fields == [] then None
    else if StartsWith(fields[0], key + "=") then Some(fields[0][|key| + 1..])
    else ValueOf(fields[1..], key)
  }

  function ParameterValue(queryString: string, key: string): Option<string>
  {
    ValueOf(Split(queryString, '&'), key)
  }

  lemma NoAmpersandInConcat(a: string, b: string)
    requires '&' !in a && '&' !in b
    ensures '&' !in a + b
  {
    forall i | 0 <= i < |a + b| ensures (a + b)[i] != '&' {
      if i < |a| {
        assert (a + b)[i] == a[i];
      } else {
        assert (a + b)[i] == b[i - |a|];
      }
    }
  }

  lemma NoAmpersandInField(key: string, value: string)
    requires IsSearchKey(key) && '&' !in value
    ensures '&' !in Field(key, value)
  {
    assert '&' !in key;
    NoAmpersandInConcat(key, "=");
    NoAmpersandInConcat(key + "=", value);
  }

  lemma NoAmpersandInNumber(n: int)
    ensures '&' !in IntToString(n)
  {
    var s := IntToString(n);
    if n < 0 {
      var digits := NatToString(-n);
      forall i | 0 <= i < |digits| ensures digits[i] != '&' {
        assert IsDigit(digits[i]);
      }
      NoAmpersandInConcat("-", digits);
    } else {
      forall i | 0 <= i < |s| ensures s[i] != '&' {
        assert IsDigit(s[i]);
      }
    }
  }

  predicate IsSearchKey(key: string)
  {
    key == "q" || key == "genre" || key == "year" || key == "minRating"
  }

  /** A query-string field `key=value`. */
  function Field(key: string, value: string): string
  {
    key + "=" + value
  }

  /** A field answers for its own key, with its value, and for no other
      search key. */
  lemma FieldKey(key: string, value: string, other: string)
    requires IsSearchKey(key) && IsSearchKey(other)
    ensures StartsWith(Field(key, value), other + "=") <==> key == other
    ensures key == other ==> Field(key, value)[|other| + 1..] == value
  {
    var f := Field(key, value);
    assert f[0] == key[0];
    assert (other + "=")[0] == other[0];
    if key == other {
      assert f[..|key| + 1] == key + "=";
    } else {
      assert key[0] != other[0];
    }
  }

  lemma ValueOfSingle(f: string, key: string)
    ensures ValueOf([f], key) == if StartsWith(f, key + "=") then Some(f[|key| + 1..]) else None
  {
    assert [f][1..] == [];
  }

  /** The value of a key in a + b is its value in a, or else in b. */
  lemma {:induction false} ValueOfConcat(a: seq<string>, b: seq<string>, key: string)
    ensures ValueOf(a + b, key) == if ValueOf(a, key).Some? then ValueOf(a, key) else ValueOf(b, key)
  {
    if a == [] {
      assert a + b == b;
    } else {
      assert (a + b)[0] == a[0];
      assert (a + b)[1..] == a[1..] + b;
      ValueOfConcat(a[1..], b, key);
    }
  }

  /** The value the parameter list gives for one search key. */
  lemma FieldAnswers(escape: string -> string, query: string, genre: Option<string>, year: Option<string>,
                     minRating: Option<int>, key: string)
    requires IsSearchKey(key)
    ensures ValueOf(SearchParameters(escape, query, genre, year, minRating), key) ==
            if key == "q" then Some(escape(query))
            else if key == "genre" then (if !IsNullOrWhiteSpace(genre) then Some(escape(genre.value)) else None)
            else if key == "year" then (if !IsNullOrWhiteSpace(year) then Some(escape(year.value)) else None)
            else (if minRating.Some? then Some(IntToString(minRating.value)) else None)
  {
    var q := Field("q", escape(query));
    var gs := if !IsNullOrWhiteSpace(genre) then [Field("genre", escape(genre.value))] else [];
    var ys := if !IsNullOrWhiteSpace(year) then [Field("year", escape(year.value))] else [];
    var ms := if minRating.Some? then [Field("minRating", IntToString(minRating.value))] else [];
    assert SearchParameters(escape, query, genre, year, minRating) == [q] + gs + ys + ms;
    ValueOfConcat([q] + gs + ys, ms, key);
    ValueOfConcat([q] + gs, ys, key);
    ValueOfConcat([q], gs, key);
    ValueOfSingle(q, key);
    FieldKey("q", escape(query), key);
    if gs != [] {
      ValueOfSingle(gs[0], key);
      FieldKey("genre", escape(genre.value), key);
    }
    if ys != [] {
      ValueOfSingle(ys[0], key);
      FieldKey("year", escape(year.value), key);
    }
    if ms != [] {
      ValueOfSingle(ms[0], key);
      FieldKey("minRating", IntToString(minRating.value), key);
    }
  }

  /** int.Parse of an optional value. */
  function ParsedValue(v: Option<string>): Option<int>
  {
    if v.None? then None else ParseInt(v.value)
  }


  /** No field of the list holds the separator, given an escape that never
      leaves a bare '&' (percent-encoding, section 2.1 of RFC 3986). */
  lemma NoAmpersandInParameters(escape: string -> string, query: string, genre: Option<string>, year: Option<string>,
                                minRating: Option<int>)
    requires forall s :: '&' !in escape(s)
    ensures var ps := SearchParameters(escape, query, genre, year, minRating);
            forall k :: 0 <= k < |ps| ==> '&' !in ps[k]
  {
    var q := Field("q", escape(query));
    var gs := if !IsNullOrWhiteSpace(genre) then [Field("genre", escape(genre.value))] else [];
    var ys := if !IsNullOrWhiteSpace(year) then [Field("year", escape(year.value))] else [];
    var ms := if minRating.Some? then [Field("minRating", IntToString(minRating.value))] else [];
    var ps := SearchParameters(escape, query, genre, year, minRating);
    assert ps == [q] + gs + ys + ms;
    NoAmpersandInField("q", escape(query));
    if gs != [] {
      NoAmpersandInField("genre", escape(genre.value));
    }
    if ys != [] {
      NoAmpersandInField("year", escape(year.value));
    }
    if ms != [] {
      NoAmpersandInNumber(minRating.value);
      NoAmpersandInField("minRating", IntToString(minRating.value));
    }
    forall k | 0 <= k < |ps| ensures '&' !in ps[k] {
      if k == 0 {
        assert ps[k] == q;
      } else if k <= |gs| {
        assert ps[k] == gs[k - 1];
      } else if k <= |gs| + |ys| {
        assert ps[k] == ys[k - 1 - |gs|];
      } else {
        assert ps[k] == ms[k - 1 - |gs| - |ys|];
      }
    }
  }

  /** The endpoint round trip: reading the query string back gives the
      escaped query, the escaped genre and year exactly when they are not
      blank, and the minimum rating exactly when there is one; the books route
      is taken exactly for type "book". */
  lemma EndpointRoundTrip(escape: string -> string, query: string, contentType: Option<string>, genre: Option<string>,
                          year: Option<string>, minRating: Option<int>)
    requires forall s :: '&' !in escape(s)
    requires minRating.Some? ==> Int32Min <= minRating.value <= Int32Max
    ensures var endpoint := Route(contentType) + Join(SearchParameters(escape, query, genre, year, minRating), "&");
            var qs := endpoint[|Route(contentType)|..];
            StartsWith(endpoint, BooksRoute) == (contentType == Some("book")) &&
            ParameterValue(qs, "q") == Some(escape(query)) &&
            ParameterValue(qs, "genre") == (if !IsNullOrWhiteSpace(genre) then Some(escape(genre.value)) else None) &&
            ParameterValue(qs, "year") == (if !IsNullOrWhiteSpace(year) then Some(escape(year.value)) else None) &&
            ParsedValue(ParameterValue(qs, "minRating")) == minRating
  {
    var ps := SearchParameters(escape, query, genre, year, minRating);
    var endpoint := Route(contentType) + Join(ps, "&");
    assert endpoint[|Route(contentType)|..] == Join(ps, "&");
    QueryStringRoundTrip(escape, query, genre, year, minRating);
    RouteChoice(contentType, Join(ps, "&"));
  }

  lemma QueryStringRoundTrip(escape: string -> string, query: string, genre: Option<string>, year: Option<string>,
                             minRating: Option<int>)
    requires forall s :: '&' !in escape(s)
    requires minRating.Some? ==> Int32Min <= minRating.value <= Int32Max
    ensures var qs := Join(SearchParameters(escape, query, genre, year, minRating), "&");
            ParameterValue(qs, "q") == Some(escape(query)) &&
            ParameterValue(qs, "genre") == (if !IsNullOrWhiteSpace(genre) then Some(escape(genre.value)) else None) &&
            ParameterValue(qs, "year") == (if !IsNullOrWhiteSpace(year) then Some(escape(year.value)) else None) &&
            ParsedValue(ParameterValue(qs, "minRating")) == minRating
  {
    var ps := SearchParameters(escape, query, genre, year, minRating);
    NoAmpersandInParameters(escape, query, genre, year, minRating);
    SplitJoin(ps, '&');
    assert Split(Join(ps, "&"), '&') == ps by {
      assert "&" == ['&'];
    }
    FieldAnswers(escape, query, genre, year, minRating, "q");
    FieldAnswers(escape, query, genre, year, minRating, "genre");
    FieldAnswers(escape, query, genre, year, minRating, "year");
    FieldAnswers(escape, query, genre, year, minRating, "minRating");
    if minRating.Some? {
      IntToStringRoundTrip(minRating.value);
    }
  }

  /** The books route is taken for type "book" and only for it. */
  lemma RouteChoice(contentType: Option<string>, rest: string)
    ensures StartsWith(Route(contentType) + rest, BooksRoute) <==> contentType == Some("book")
  {
    var endpoint := Route(contentType) + rest;
    if contentType == Some("book") {
      assert endpoint[..|BooksRoute|] == BooksRoute;
    } else {
      assert endpoint[19] == 'm' && BooksRoute[19] == 'b';
    }
  }

  // ---------------------------------------------------------------------------
  // Index
  // ---------------------------------------------------------------------------

  /** The page model of Index, computed from the API's replies. */
  function IndexView(escape: string -> string, genresReply: ApiReply<seq<string>>,
                     cards: string -> ApiReply<seq<ContentCard>>, query: Option<string>, contentType: Option<string>,
                     genre: Option<string>, year: Option<string>, minRating: Option<int>): SearchView
  {
    var model := SearchView(query, if contentType.Some? then contentType.value else DefaultContentType,
                            genre, year, minRating, [], [], [], [], false);
    match genresReply
    case Throws => model.(error := true)
    case NullBody => AfterGenres(escape, cards, model, query, contentType, genre, year, minRating)
    case Body(g) => AfterGenres(escape, cards, model.(availableGenres := g), query, contentType, genre, year, minRating)
  }

  /** The rest of Index once the genres are in: the search, or the showcases. */
  function AfterGenres(escape: string -> string, cards: string -> ApiReply<seq<ContentCard>>, model: SearchView,
                       query: Option<string>, contentType: Option<string>, genre: Option<string>, year: Option<string>,
                       minRating: Option<int>): SearchView
  {
    if !IsNullOrWhiteSpace(query) then
      match cards(Route(contentType) + Join(SearchParameters(escape, query.value, genre, year, minRating), "&"))
      case Throws => model.(error := true)
      case NullBody => model
      case Body(r) => model.(searchResults := r)
    else
      // LoadShowcases catches its own exception: the page shows no error.
      match cards(TopRatedEndpoint)
      case Throws => model
      case NullBody => ShowMostPopular(cards, model)
      case Body(top) => ShowMostPopular(cards, model.(topRated := top))
  }

  function ShowMostPopular(cards: string -> ApiReply<seq<ContentCard>>, model: SearchView): SearchView
  {
    match cards(MostPopularEndpoint)
    case Throws => model
    case NullBody => model
    case Body(popular) => model.(mostPopular := popular)
  }

  /** Index: the content type defaults to "movie"; with a non-blank query the
      search runs and the showcases stay empty; without one the showcases
      load and no search runs. */
  lemma IndexChoosesSearchOrShowcases(escape: string -> string, genresReply: ApiReply<seq<string>>,
                                      cards: string -> ApiReply<seq<ContentCard>>, query: Option<string>,
                                      contentType: Option<string>, genre: Option<string>, year: Option<string>,
                                      minRating: Option<int>)
    ensures var v := IndexView(escape, genresReply, cards, query, contentType, genre, year, minRating);
            v.contentType == (if contentType.None? then "movie" else contentType.value) &&
            v.query == query &&
            (!IsNullOrWhiteSpace(query) ==> v.topRated == [] && v.mostPopular == []) &&
            (IsNullOrWhiteSpace(query) ==> v.searchResults == [] && !(v.error && !genresReply.Throws?))
    ensures !IsNullOrWhiteSpace(query) && !genresReply.Throws? ==>
              var endpoint := Route(contentType) + Join(SearchParameters(escape, query.value, genre, year, minRating), "&");
              var v := IndexView(escape, genresReply, cards, query, contentType, genre, year, minRating);
              (cards(endpoint).Body? ==> v.searchResults == cards(endpoint).value) &&
              (v.error <==> cards(endpoint).Throws?)
  {
  }

  /** With a query, the page depends on the search endpoint alone among the
      card endpoints: two APIs that agree there give the same page. */
  lemma SearchReadsOneEndpoint(escape: string -> string, genresReply: ApiReply<seq<string>>,
                               cards1: string -> ApiReply<seq<ContentCard>>, cards2: string -> ApiReply<seq<ContentCard>>,
                               query: Option<string>, contentType: Option<string>, genre: Option<string>,
                               year: Option<string>, minRating: Option<int>)
    requires !IsNullOrWhiteSpace(query)
    requires var endpoint := Route(contentType) + Join(SearchParameters(escape, query.value, genre, year, minRating), "&");
             cards1(endpoint) == cards2(endpoint)
    ensures IndexView(escape, genresReply, cards1, query, contentType, genre, year, minRating) ==
            IndexView(escape, genresReply, cards2, query, contentType, genre, year, minRating)
  {
  }

  method Index(escape: string -> string, genresReply: ApiReply<seq<string>>, cards: string -> ApiReply<seq<ContentCard>>,
               query: Option<string>, contentType: Option<string>, genre: Option<string>, year: Option<string>,
               minRating: Option<int>)
    returns (model: SearchView)
    ensures model == IndexView(escape, genresReply, cards, query, contentType, genre, year, minRating)
  {
    model := SearchView(query, if contentType.Some? then contentType.value else DefaultContentType,
                        genre, year, minRating, [], [], [], [], false);
    if genresReply.Throws? {
      model := model.(error := true);
      return;
    }
    if genresReply.Body? {
      model := model.(availableGenres := genresReply.value);
    }
    if !IsNullOrWhiteSpace(query) {
      var endpoint := BuildSearchEndpoint(escape, query.value, contentType, genre, year, minRating);
      var searchResults := cards(endpoint);
      if searchResults.Throws? {
        model := model.(error := true);
        return;
      }
      if searchResults.Body? {
        model := model.(searchResults := searchResults.value);
      }
    } else {
      var top := cards(TopRatedEndpoint);
      if top.Throws? {
        return;
      }
      if top.Body? {
        model := model.(topRated := top.value);
      }
      var popular := cards(MostPopularEndpoint);
      if popular.Body? {
        model := model.(mostPopular := popular.value);
      }
    }
  }
}
