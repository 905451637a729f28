/** ContentService: movie and book search over the records the catalog APIs
    return. The HTTP request is the function `fetch` from a request to the
    parsed response; a JSON property that may be missing or null is a
    `JsonString` or an `Option`. Ratings are whole numbers. Every exception the
    search can raise (a missing property, a number int.Parse rejects, a failed
    request) ends the search with an empty list. */
module Catalog {
  import opened Common
  import opened Query

  const PageSize: int := 18
  const FilteredSearchPages: int := 10
  const CoverPrefix: string := "https://image.tmdb.org/t/p/w500"
  const UnknownTitle: string := "Bilinmiyor"
  const DefaultBookQuery: string := "bestseller"

  /** A string property of a JSON object: missing, null, or a string. */
  datatype JsonString = Absent | Null | Text(s: string)

  /** The fields of one TMDb result that the service reads. */
  datatype MovieItem = MovieItem(
    id: Option<int>,
    title: JsonString,
    name: JsonString,
    posterPath: JsonString,
    releaseDate: JsonString,
    firstAirDate: JsonString,
    voteAverage: Option<int>,
    genreIds: Option<seq<int>>)

  /** `volumeInfo` of one Google Books result; `thumbnail` is
      imageLinks.thumbnail. */
  datatype VolumeInfo = VolumeInfo(
    title: JsonString,
    averageRating: Option<int>,
    publishedDate: JsonString,
    thumbnail: JsonString)

  datatype BookItem = BookItem(id: JsonString, volumeInfo: Option<VolumeInfo>)

  datatype ContentDto = ContentDto(
    id: string,
    title: string,
    contentType: string,
    coverUrl: Option<string>,
    rating: Option<int>,
    year: Option<int>)

  /** An answer of a catalog API: the request failed, the body has no result
      array, or the parsed results. */
  datatype Response<T> = Failed | NoResults | Results(items: seq<T>)

  datatype SearchFault = FetchFailed | MissingProperty | BadNumber

  /** The year parameters of a discover request. */
  datatype YearQuery = AnyYear | SingleYear(year: string) | YearRange(from: string, to: string)

  /** The TMDb requests the movie search sends. */
  datatype MovieRequest =
    | SearchPage(query: string, page: int, releaseYear: Option<string>)
    | Discover(page: int, withGenres: Option<int>, minVote: Option<int>, year: YearQuery)

  /** The Google Books request the book search sends. */
  datatype BookRequest = BookRequest(query: string, subject: Option<string>, startIndex: int, maxResults: int)

  // ---------------------------------------------------------------------------
  // GetGenreId: a case-insensitive lookup in the Turkish genre table
  // ---------------------------------------------------------------------------

  const Genres: seq<(string, int)> := [
    ("Aksiyon", 28), ("Macera", 12), ("Animasyon", 16),
    ("Komedi", 35), ("Su\U{00E7}", 80), ("Belgesel", 99),
    ("Drama", 18), ("Aile", 10751), ("Fantastik", 14),
    ("Tarih", 36), ("Korku", 27), ("M\U{00FC}zik", 10402),
    ("Gizem", 9648), ("Romantik", 10749), ("Bilim Kurgu", 878),
    ("TV Filmi", 10770), ("Gerilim", 53), ("Sava\U{015F}", 10752),
    ("Western", 37)]

  /** The upper-case form StringComparer.OrdinalIgnoreCase compares, for the
      Latin letters: ASCII, Latin-1 and Latin Extended-A. The dotless i (U+0131)
      has no simple upper-case form here and stays as it is. */
  function FoldChar(c: char): char
  {
    if 'a' <= c <= 'z' then (c as int - 32) as char
    else if '\U{00E0}' <= c <= '\U{00FE}' && c != '\U{00F7}' then (c as int - 32) as char
    else if c == '\U{00FF}' then '\U{0178}'
    else if '\U{0100}' <= c <= '\U{0137}' && c as int % 2 == 1 && c != '\U{0131}' then (c as int - 1) as char
    else if '\U{0139}' <= c <= '\U{0148}' && c as int % 2 == 0 then (c as int - 1) as char
    else if '\U{014A}' <= c <= '\U{0177}' && c as int % 2 == 1 then (c as int - 1) as char
    else if '\U{0179}' <= c <= '\U{017E}' && c as int % 2 == 0 then (c as int - 1) as char
    else c
  }

  predicate EqualsIgnoreCase(a: string, b: string)
  {
    |a| == |b| && forall i :: 0 <= i < |a| ==> FoldChar(a[i]) == FoldChar(b[i])
  }

  /** Dictionary.TryGetValue with the ignore-case comparer. */
  function Lookup(table: seq<(string, int)>, name: string): (r: Option<int>)
    ensures r.None? <==> forall k :: 0 <= k < |table| ==> !EqualsIgnoreCase(table[k].0, name)
    ensures r.Some? ==> exists k :: 0 <= k < |table| && EqualsIgnoreCase(table[k].0, name) && table[k].1 == r.value
  {
    if table == [] then None
    else if EqualsIgnoreCase(table[0].0, name) then Some(table[0].1)
    else
      var r := Lookup(table[1..], name);
      assert forall k :: 1 <= k < |table| ==> table[k] == table[1..][k - 1];
      if r.Some? then
        var k :| 0 <= k < |table[1..]| && EqualsIgnoreCase(table[1..][k].0, name) && table[1..][k].1 == r.value;
        assert table[k + 1] == table[1..][k];
        r
      else r
  }

  function GetGenreId(genreName: string): Option<int>
  {
    Lookup(Genres, genreName)
  }

  /** A name is a genre exactly when it equals one of the table's names up to
      case, and then its id is that entry's id. */
  lemma GenreIdMeaning(genreName: string)
    ensures GetGenreId(genreName).Some? <==> exists k :: 0 <= k < |Genres| && EqualsIgnoreCase(Genres[k].0, genreName)
    ensures GetGenreId(genreName).Some? ==>
              exists k :: 0 <= k < |Genres| && EqualsIgnoreCase(Genres[k].0, genreName) && Genres[k].1 == GetGenreId(genreName).value
  {
  }

  /** Case does not matter: "bilim kurgu" and "SUÇ" find their genres, and an
      English name is not in the table. */
  lemma GenreIdIgnoresCase()
    ensures GetGenreId("bilim kurgu") == Some(878)
    ensures GetGenreId("SU\U{00C7}") == Some(80)
    ensures GetGenreId("Science Fiction").None?
  {
    LowerCaseGenre();
    UpperCaseGenre();
    EnglishNameIsNoGenre();
  }

  lemma LowerCaseGenre()
    ensures GetGenreId("bilim kurgu") == Some(878)
  {
    assert EqualsIgnoreCase(Genres[14].0, "bilim kurgu");
    forall k | 0 <= k < |Genres| && k != 14 ensures |Genres[k].0| != |"bilim kurgu"| {
      // three ranges of the table, each a handful of literal names
      if k < 7 {
      } else if k < 14 {
      } else {
      }
    }
    GenreIdMeaning("bilim kurgu");
  }

  lemma UpperCaseGenre()
    ensures GetGenreId("SU\U{00C7}") == Some(80)
  {
    assert EqualsIgnoreCase(Genres[4].0, "SU\U{00C7}");
    forall k | 0 <= k < |Genres| && k != 4 ensures |Genres[k].0| != |"SU\U{00C7}"| {
      // three ranges of the table, each a handful of literal names
      if k < 7 {
      } else if k < 14 {
      } else {
      }
    }
    GenreIdMeaning("SU\U{00C7}");
  }

  lemma EnglishNameIsNoGenre()
    ensures GetGenreId("Science Fiction").None?
  {
    assert forall k :: 0 <= k < |Genres| ==> |Genres[k].0| != |"Science Fiction"|;
  }

  // ---------------------------------------------------------------------------
  // MapToDto
  // ---------------------------------------------------------------------------

  /** `TryGetProperty(...) ? GetString() : null` */
  function StringOrNull(j: JsonString): Option<string>
  {
    if j.Text? then Some(j.s) else None
  }

  /** The year of a date string: its first four characters as a number when
      the date has at least four, else null; int.Parse may reject them. */
  function YearOf(date: Option<string>): Result<Option<int>, SearchFault>
  {
    if IsNullOrEmpty(date) || |date.value| < 4 then Success(None)
    else
      match ParseInt(date.value[..4])
      case None => Failure(BadNumber)
      case Some(y) => Success(Some(y))
  }

  /** A TMDb item as a content DTO: title, else name, else "Bilinmiyor"; the
      poster under the w500 prefix; the release (or first air) year. */
  function MapToDto(item: MovieItem, contentType: string): Result<ContentDto, SearchFault>
  {
    var title := if item.title != Absent then StringOrNull(item.title) else StringOrNull(item.name);
    var poster := StringOrNull(item.posterPath);
    var date := if item.releaseDate != Absent then StringOrNull(item.releaseDate) else StringOrNull(item.firstAirDate);
    if item.id.None? || !(Int32Min <= item.id.value <= Int32Max) then Failure(MissingProperty)
    else
      match YearOf(date)
      case Failure(f) => Failure(f)
      case Success(year) =>
        Success(ContentDto(
          IntToString(item.id.value),
          if title.Some? then title.value else UnknownTitle,
          contentType,
          if !IsNullOrEmpty(poster) then Some(CoverPrefix + poster.value) else None,
          item.voteAverage,
          year))
  }

  /** What MapToDto promises: it fails only on a missing id or an unreadable
      year; the id reads back as the TMDb id; the cover is the w500 URL of a
      non-empty poster path and absent otherwise; the year is the number the
      date starts with. */
  lemma MapToDtoMeaning(item: MovieItem, contentType: string)
    ensures var date := if item.releaseDate != Absent then StringOrNull(item.releaseDate) else StringOrNull(item.firstAirDate);
            MapToDto(item, contentType).Success? <==>
              item.id.Some? && Int32Min <= item.id.value <= Int32Max && YearOf(date).Success?
    ensures MapToDto(item, contentType).Success? ==>
              var dto := MapToDto(item, contentType).value;
              ParseInt(dto.id) == item.id &&
              dto.contentType == contentType &&
              dto.rating == item.voteAverage &&
              (dto.coverUrl.Some? <==> item.posterPath.Text? && item.posterPath.s != "") &&
              (dto.coverUrl.Some? ==> StartsWith(dto.coverUrl.value, CoverPrefix) &&
                                      dto.coverUrl.value[|CoverPrefix|..] == item.posterPath.s) &&
              (item.releaseDate.Text? && |item.releaseDate.s| >= 4 ==>
                 dto.year == ParseInt(item.releaseDate.s[..4])) &&
              (item.title.Text? ==> dto.title == item.title.s)
  {
    if MapToDto(item, contentType).Success? {
      IntToStringRoundTrip(item.id.value);
      var dto := MapToDto(item, contentType).value;
      if dto.coverUrl.Some? {
        assert dto.coverUrl.value == CoverPrefix + item.posterPath.s;
      }
    }
  }

  // ---------------------------------------------------------------------------
  // The foreach loops over the results
  // ---------------------------------------------------------------------------

  /** A loop over the items that may throw: the first exception ends it;
      otherwise it collects the DTO of every item that is not skipped, in
      item order. */
  function CollectAll<T>(outcome: T -> Result<Option<ContentDto>, SearchFault>, items: seq<T>)
    : (r: Result<seq<ContentDto>, SearchFault>)
    ensures r.Success? ==> |r.value| <= |items|
  {
    if items == [] then Success([])
    else
      match CollectAll(outcome, items[..|items| - 1])
      case Failure(f) => Failure(f)
      case Success(acc) =>
        match outcome(items[|items| - 1])
        case Failure(f) => Failure(f)
        case Success(None) => Success(acc)
        case Success(Some(d)) => Success(acc + [d])
  }

  lemma CollectSnoc<T>(outcome: T -> Result<Option<ContentDto>, SearchFault>, items: seq<T>, x: T)
    ensures CollectAll(outcome, items + [x]) ==
            match CollectAll(outcome, items)
            case Failure(f) => Failure(f)
            case Success(acc) =>
              match outcome(x)
              case Failure(f) => Failure(f)
              case Success(None) => Success(acc)
              case Success(Some(d)) => Success(acc + [d])
  {
    assert (items + [x])[..|items|] == items;
  }

  /** Once an item throws, the loop as a whole throws. */
  lemma {:induction false} CollectFailureSticks<T>(outcome: T -> Result<Option<ContentDto>, SearchFault>, items: seq<T>, n: nat)
    requires n <= |items|
    requires CollectAll(outcome, items[..n]).Failure?
    ensures CollectAll(outcome, items) == CollectAll(outcome, items[..n])
    decreases |items| - n
  {
    if n < |items| {
      assert items[..n + 1] == items[..n] + [items[n]];
      CollectSnoc(outcome, items[..n], items[n]);
      CollectFailureSticks(outcome, items, n + 1);
    } else {
      assert items[..n] == items;
    }
  }

  /** The collected DTOs are exactly those of the items that are not skipped:
      the loop throws when some item throws, and otherwise every DTO comes from
      an item and every kept item's DTO is there. */
  lemma {:induction false} CollectMembers<T>(outcome: T -> Result<Option<ContentDto>, SearchFault>, items: seq<T>)
    ensures CollectAll(outcome, items).Failure? <==> exists k :: 0 <= k < |items| && outcome(items[k]).Failure?
    ensures CollectAll(outcome, items).Success? ==>
              forall d :: d in CollectAll(outcome, items).value <==>
                exists k :: 0 <= k < |items| && outcome(items[k]) == Success(Some(d))
  {
    if items != [] {
      var init := items[..|items| - 1];
      var x := items[|items| - 1];
      assert items == init + [x];
      CollectMembers(outcome, init);
      assert forall k :: 0 <= k < |init| ==> init[k] == items[k];
      if CollectAll(outcome, items).Success? {
        forall d ensures d in CollectAll(outcome, items).value <==>
                         exists k :: 0 <= k < |items| && outcome(items[k]) == Success(Some(d)) {
          if exists k :: 0 <= k < |items| && outcome(items[k]) == Success(Some(d)) {
            var k :| 0 <= k < |items| && outcome(items[k]) == Success(Some(d));
            if k < |init| {
              assert outcome(init[k]) == Success(Some(d));
            }
          }
        }
      }
    }
  }

  /** Items that fail or pass the filters, as `ratingValue < minRating` sees
      them: a missing rating counts as 0. */
  function RatingOf(rating: Option<int>): int
  {
    if rating.Some? then rating.value else 0
  }

  /** A year parameter "a-b": the bounds are the first two '-'-separated parts. */
  predicate IsYearRange(year: Option<string>)
  {
    !IsNullOrEmpty(year) && '-' in year.value
  }

  /** `y < int.Parse(parts[0]) || y > int.Parse(parts[1])`, evaluated left to
      right: the upper bound is parsed only when the lower one holds. */
  function OutsideRange(y: int, range: string): Result<bool, SearchFault>
    requires '-' in range
  {
    var parts := Split(range, '-');
    match ParseInt(parts[0])
    case None => Failure(BadNumber)
    case Some(lo) =>
      if y < lo then Success(true)
      else
        match ParseInt(parts[1])
        case None => Failure(BadNumber)
        case Some(hi) => Success(y > hi)
  }

  // ---------------------------------------------------------------------------
  // Movie search
  // ---------------------------------------------------------------------------

  /** The filters of the search mode, in order: genre, rating, year range.
      Success(false) is `continue`; a failure is an exception. */
  function MovieKept(item: MovieItem, genreId: Option<int>, year: Option<string>, minRating: Option<int>)
    : Result<bool, SearchFault>
  {
    if genreId.Some? && item.genreIds.None? then Failure(MissingProperty)
    else if genreId.Some? && genreId.value !in item.genreIds.value then Success(false)
    else if minRating.Some? && RatingOf(item.voteAverage) < minRating.value then Success(false)
    else if IsYearRange(year) then
      var dateStr := if item.releaseDate == Absent then Some("") else StringOrNull(item.releaseDate);
      if IsNullOrEmpty(dateStr) || |dateStr.value| < 4 then Success(false)
      else
        match ParseInt(dateStr.value[..4])
        case None => Failure(BadNumber)
        case Some(y) =>
          match OutsideRange(y, year.value)
          case Failure(f) => Failure(f)
          case Success(outside) => Success(!outside)
    else Success(true)
  }

  /** The bounds of a year range as int.Parse reads them. */
  predicate InRange(y: int, range: string)
  {
    '-' in range &&
    var parts := Split(range, '-');
    ParseInt(parts[0]).Some? && ParseInt(parts[1]).Some? &&
    ParseInt(parts[0]).value <= y <= ParseInt(parts[1]).value
  }

  /** An item passes the search filters exactly when it has the genre, its
      rating (0 when missing) reaches the minimum, and, for a year range, its
      release date has a year within the range. */
  lemma MovieKeptMeaning(item: MovieItem, genreId: Option<int>, year: Option<string>, minRating: Option<int>)
    ensures MovieKept(item, genreId, year, minRating) == Success(true) <==>
              (genreId.Some? ==> item.genreIds.Some? && genreId.value in item.genreIds.value) &&
              (minRating.Some? ==> RatingOf(item.voteAverage) >= minRating.value) &&
              (IsYearRange(year) ==>
                 item.releaseDate.Text? && |item.releaseDate.s| >= 4 &&
                 ParseInt(item.releaseDate.s[..4]).Some? &&
                 InRange(ParseInt(item.releaseDate.s[..4]).value, year.value))
    ensures IsYearRange(year) && !(item.releaseDate.Text? && |item.releaseDate.s| >= 4) ==>
              MovieKept(item, genreId, year, minRating) != Success(true)
  {
  }

  function MovieOutcome(genreId: Option<int>, year: Option<string>, minRating: Option<int>)
    : MovieItem -> Result<Option<ContentDto>, SearchFault>
  {
    (item: MovieItem) =>
      match MovieKept(item, genreId, year, minRating)
      case Failure(f) => Failure(f)
      case Success(false) => Success(None)
      case Success(true) =>
        match MapToDto(item, "movie")
        case Failure(f) => Failure(f)
        case Success(d) => Success(Some(d))
  }

  /** The primary_release_year parameter of a search page: a single year only. */
  function ReleaseYearParam(year: Option<string>): Option<string>
  {
    if !IsNullOrEmpty(year) && '-' !in year.value then year else None
  }

  /** The year parameters of a discover request. */
  function YearParam(year: Option<string>): YearQuery
  {
    if IsNullOrEmpty(year) then AnyYear
    else if '-' in year.value then
      var parts := Split(year.value, '-');
      YearRange(parts[0], parts[1])
    else SingleYear(year.value)
  }

  /** The results of search pages 1..n, in page order (Task.WhenAll fails when
      one request fails). */
  function Pool(fetch: MovieRequest -> Response<MovieItem>, query: string, releaseYear: Option<string>, n: nat)
    : Result<seq<MovieItem>, SearchFault>
  {
    if n == 0 then Success([])
    else
      match Pool(fetch, query, releaseYear, n - 1)
      case Failure(f) => Failure(f)
      case Success(acc) =>
        match fetch(SearchPage(query, n, releaseYear))
        case Failed => Failure(FetchFailed)
        case NoResults => Success(acc)
        case Results(items) => Success(acc + items)
  }

  lemma {:induction false} PoolFailureSticks(fetch: MovieRequest -> Response<MovieItem>, query: string,
                                             releaseYear: Option<string>, k: nat, n: nat)
    requires k <= n
    requires Pool(fetch, query, releaseYear, k).Failure?
    ensures Pool(fetch, query, releaseYear, n) == Pool(fetch, query, releaseYear, k)
    decreases n - k
  {
    if k < n {
      PoolFailureSticks(fetch, query, releaseYear, k, n - 1);
    }
  }

  function GenreIdOf(genre: Option<string>): Option<int>
  {
    if !IsNullOrEmpty(genre) then GetGenreId(genre.value) else None
  }

  predicate HasFilters(genre: Option<string>, year: Option<string>, minRating: Option<int>)
  {
    GenreIdOf(genre).Some? || !IsNullOrEmpty(year) || minRating.Some?
  }

  function PagesToFetch(genre: Option<string>, year: Option<string>, minRating: Option<int>): nat
  {
    if HasFilters(genre, year, minRating) then FilteredSearchPages else 1
  }

  /** The skip count of a page of 18: (page - 1) * 18 in unchecked Int32
      arithmetic. */
  function PageOffset(page: int): int
  {
    Wrap32((page - 1) * PageSize)
  }

  /** Up to page 119,304,648 the offset is the exact (page - 1) * 18; one page
      later it wraps to a negative number. */
  lemma PageOffsetMeaning(page: int)
    ensures 1 <= page <= 119304648 ==> PageOffset(page) == (page - 1) * PageSize >= 0
    ensures PageOffset(119304649) == -2147483632
  {
    if 1 <= page <= 119304648 {
      assert 0 <= (page - 1) * PageSize <= 119304647 * PageSize;
      Wrap32InRange((page - 1) * PageSize);
    }
    assert (119304649 - 1) * PageSize == 2147483664;
  }

  /** The search mode's answer: the pool filtered, then page `page` of 18. */
  function SearchModePage(pool: Result<seq<MovieItem>, SearchFault>,
                          outcome: MovieItem -> Result<Option<ContentDto>, SearchFault>, page: int): seq<ContentDto>
  {
    match pool
    case Failure(_) => []
    case Success(items) =>
      match CollectAll(outcome, items)
      case Failure(_) => []
      case Success(contents) => Window(contents, PageOffset(page), PageSize)
  }

  /** A page whose offset wraps to a negative number skips nothing (LINQ's
      Skip of a negative count), so it answers the first page again. */
  lemma WrappedPageIsFirstPage(pool: Result<seq<MovieItem>, SearchFault>,
                               outcome: MovieItem -> Result<Option<ContentDto>, SearchFault>)
    ensures SearchModePage(pool, outcome, 119304649) == SearchModePage(pool, outcome, 1)
  {
    PageOffsetMeaning(119304649);
    PageOffsetMeaning(1);
  }

  /** Every movie on a search-mode page is the outcome of an item of a pool that was fetched. */
  lemma SearchModeMembers(pool: Result<seq<MovieItem>, SearchFault>,
                          outcome: MovieItem -> Result<Option<ContentDto>, SearchFault>, page: int, d: ContentDto)
    requires d in SearchModePage(pool, outcome, page)
    ensures pool.Success?
    ensures exists k :: 0 <= k < |pool.value| && outcome(pool.value[k]) == Success(Some(d))
  {
    var contents := CollectAll(outcome, pool.value).value;
    WindowMembers(contents, PageOffset(page), PageSize, d);
    CollectMembers(outcome, pool.value);
  }

  /** SearchMoviesAsync. With a query, the pool of search pages is filtered
      and one page of 18 is cut from it; without one, a discover request is
      sent and its first 18 results are returned. Any exception gives []. */
  function SearchMoviesResult(fetch: MovieRequest -> Response<MovieItem>, query: Option<string>, genre: Option<string>,
                              year: Option<string>, minRating: Option<int>, page: int): seq<ContentDto>
  {
    var genreId := GenreIdOf(genre);
    if !IsNullOrWhiteSpace(query) then
      SearchModePage(Pool(fetch, query.value, ReleaseYearParam(year), PagesToFetch(genre, year, minRating)),
                     MovieOutcome(genreId, year, minRating), page)
    else
      match fetch(Discover(page, genreId, minRating, YearParam(year)))
      case Failed => []
      case NoResults => []
      case Results(items) =>
        match CollectAll(DiscoverOutcome, items)
        case Failure(_) => []
        case Success(contents) => Take(contents, PageSize)
  }

  /** A search returns at most one page of 18. */
  lemma SearchMoviesPageBound(fetch: MovieRequest -> Response<MovieItem>, query: Option<string>, genre: Option<string>,
                              year: Option<string>, minRating: Option<int>, page: int)
    ensures |SearchMoviesResult(fetch, query, genre, year, minRating, page)| <= PageSize
  {
  }

  /** Every movie a search with a query returns is the DTO of a fetched item
      that passed the genre, rating and year-range filters, and a search whose
      pool has an item that throws returns nothing. */
  lemma SearchMoviesFiltered(fetch: MovieRequest -> Response<MovieItem>, query: Option<string>, genre: Option<string>,
                             year: Option<string>, minRating: Option<int>, page: int, d: ContentDto)
    requires !IsNullOrWhiteSpace(query)
    requires d in SearchMoviesResult(fetch, query, genre, year, minRating, page)
    ensures var pool := Pool(fetch, query.value, ReleaseYearParam(year), PagesToFetch(genre, year, minRating));
            pool.Success? &&
            exists k :: 0 <= k < |pool.value| &&
              MovieKept(pool.value[k], GenreIdOf(genre), year, minRating) == Success(true) &&
              MapToDto(pool.value[k], "movie") == Success(d)
  {
    var pool := Pool(fetch, query.value, ReleaseYearParam(year), PagesToFetch(genre, year, minRating));
    var outcome := MovieOutcome(GenreIdOf(genre), year, minRating);
    SearchModeMembers(pool, outcome, page, d);
    var k :| 0 <= k < |pool.value| && outcome(pool.value[k]) == Success(Some(d));
    assert MovieKept(pool.value[k], GenreIdOf(genre), year, minRating) == Success(true);
  }

  /** The search mode reads search pages 1 to 10 when a filter is given and
      page 1 alone otherwise: fetchers that agree on those pages give the same
      movies. */
  lemma {:induction false} SearchReadsFetchedPages(f1: MovieRequest -> Response<MovieItem>, f2: MovieRequest -> Response<MovieItem>,
                                                   query: string, releaseYear: Option<string>, n: nat)
    requires forall i :: 1 <= i <= n ==> f1(SearchPage(query, i, releaseYear)) == f2(SearchPage(query, i, releaseYear))
    ensures Pool(f1, query, releaseYear, n) == Pool(f2, query, releaseYear, n)
  {
    if n > 0 {
      SearchReadsFetchedPages(f1, f2, query, releaseYear, n - 1);
    }
  }

  // ---------------------------------------------------------------------------
  // Book search
  // ---------------------------------------------------------------------------

  /** The request of SearchBooksAsync: a blank query becomes "bestseller", a
      genre becomes the subject, and the page becomes a start index. */
  function BookRequestFor(query: Option<string>, genre: Option<string>, page: int): BookRequest
  {
    BookRequest(
      if IsNullOrWhiteSpace(query) then DefaultBookQuery else query.value,
      if !IsNullOrEmpty(genre) then genre else None,
      PageOffset(page),
      PageSize)
  }

  /** The book request never carries a blank query, keeps a given one, and
      asks for 18 results from the start of the page; the start index is an
      Int32, exact while it fits and wrapped past that. */
  lemma BookRequestMeaning(query: Option<string>, genre: Option<string>, page: int)
    ensures !AllWhiteSpace(BookRequestFor(query, genre, page).query)
    ensures !IsNullOrWhiteSpace(query) ==> BookRequestFor(query, genre, page).query == query.value
    ensures 1 <= page <= 119304648 ==> BookRequestFor(query, genre, page).startIndex + PageSize == page * PageSize
    ensures page == 119304649 ==> BookRequestFor(query, genre, page).startIndex == -2147483632
    ensures Int32Min <= BookRequestFor(query, genre, page).startIndex <= Int32Max
    ensures BookRequestFor(query, genre, page).maxResults == PageSize
    ensures BookRequestFor(query, genre, page).subject.Some? <==> !IsNullOrEmpty(genre)
  {
    if IsNullOrWhiteSpace(query) {
      assert !IsWhiteSpace(DefaultBookQuery[0]);
    }
    PageOffsetMeaning(page);
  }

  /** The rating and year filters of the book loop. */
  function BookKept(info: VolumeInfo, year: Option<string>, minRating: Option<int>): Result<bool, SearchFault>
  {
    if minRating.Some? && RatingOf(info.averageRating) < minRating.value then Success(false)
    else if !IsNullOrEmpty(year) then
      var published := if info.publishedDate == Absent then Some("") else StringOrNull(info.publishedDate);
      if !IsNullOrEmpty(published) && |published.value| >= 4 then
        match ParseInt(published.value[..4])
        case None => Failure(BadNumber)
        case Some(bookYear) =>
          if '-' in year.value then
            match OutsideRange(bookYear, year.value)
            case Failure(f) => Failure(f)
            case Success(outside) => Success(!outside)
          else
            match ParseInt(year.value)
            case None => Failure(BadNumber)
            case Some(y) => Success(bookYear == y)
      else Success(false)
    else Success(true)
  }

  /** A book passes exactly when its rating (0 when missing) reaches the
      minimum and, when a year is given, its published date starts with a year
      equal to a single year or inside a range; a book without a usable date
      never passes a year filter. */
  lemma BookKeptMeaning(info: VolumeInfo, year: Option<string>, minRating: Option<int>)
    ensures BookKept(info, year, minRating) == Success(true) <==>
              (minRating.Some? ==> RatingOf(info.averageRating) >= minRating.value) &&
              (!IsNullOrEmpty(year) ==>
                 info.publishedDate.Text? && |info.publishedDate.s| >= 4 &&
                 ParseInt(info.publishedDate.s[..4]).Some? &&
                 var bookYear := ParseInt(info.publishedDate.s[..4]).value;
                 if '-' in year.value then InRange(bookYear, year.value)
                 else ParseInt(year.value) == Some(bookYear))
    ensures !IsNullOrEmpty(year) && !(info.publishedDate.Text? && |info.publishedDate.s| >= 4) ==>
              BookKept(info, year, minRating) == Success(false)
  {
  }

  /** One book result: the filters, then the DTO. A null id takes a fresh
      Guid (`guid(k)` for the k-th result); a missing id, volumeInfo or title
      throws. */
  function BookOutcome(guid: nat -> string, year: Option<string>, minRating: Option<int>)
    : ((nat, BookItem)) -> Result<Option<ContentDto>, SearchFault>
  {
    (entry: (nat, BookItem)) =>
      var item := entry.1;
      if item.volumeInfo.None? then Failure(MissingProperty)
      else
        var info := item.volumeInfo.value;
        match BookKept(info, year, minRating)
        case Failure(f) => Failure(f)
        case Success(false) => Success(None)
        case Success(true) =>
          if item.id == Absent || info.title == Absent then Failure(MissingProperty)
          else
            var published := StringOrNull(info.publishedDate);
            match YearOf(if published.Some? && |published.value| >= 4 then published else None)
            case Failure(f) => Failure(f)
            case Success(bookYear) =>
              Success(Some(ContentDto(
                if item.id.Text? then item.id.s else guid(entry.0),
                if info.title.Text? then info.title.s else UnknownTitle,
                "book",
                StringOrNull(info.thumbnail),
                info.averageRating,
                bookYear)))
  }

  function Numbered<T>(items: seq<T>): (r: seq<(nat, T)>)
    ensures |r| == |items|
    ensures forall k :: 0 <= k < |items| ==> r[k] == (k, items[k])
  {
    seq(|items|, k requires 0 <= k < |items| => (k as nat, items[k]))
  }

  /** SearchBooksAsync: one request; every result that passes the filters, in
      result order; any exception gives []. */
  function SearchBooksResult(fetch: BookRequest -> Response<BookItem>, guid: nat -> string, query: Option<string>,
                             genre: Option<string>, year: Option<string>, minRating: Option<int>, page: int)
    : seq<ContentDto>
  {
    match fetch(BookRequestFor(query, genre, page))
    case Failed => []
    case NoResults => []
    case Results(items) =>
      match CollectAll(BookOutcome(guid, year, minRating), Numbered(items))
      case Failure(_) => []
      case Success(contents) => contents
  }

  /** Every book a search returns is built from a fetched result that passed
      the rating and year filters: typed "book", with that result's id (a
      fresh Guid when it is null), title ("Bilinmiyor" when null),
      thumbnail, rating and the year of its published date. */
  lemma SearchBooksFiltered(fetch: BookRequest -> Response<BookItem>, guid: nat -> string, query: Option<string>,
                            genre: Option<string>, year: Option<string>, minRating: Option<int>, page: int, d: ContentDto)
    requires d in SearchBooksResult(fetch, guid, query, genre, year, minRating, page)
    ensures var response := fetch(BookRequestFor(query, genre, page));
            response.Results? && d.contentType == "book" &&
            exists k :: 0 <= k < |response.items| && response.items[k].volumeInfo.Some? &&
              var item := response.items[k];
              var info := item.volumeInfo.value;
              BookKept(info, year, minRating) == Success(true) &&
              item.id != Absent && info.title != Absent &&
              d.id == (if item.id.Text? then item.id.s else guid(k)) &&
              d.title == (if info.title.Text? then info.title.s else UnknownTitle) &&
              d.coverUrl == StringOrNull(info.thumbnail) &&
              d.rating == info.averageRating &&
              YearOf(if StringOrNull(info.publishedDate).Some? && |StringOrNull(info.publishedDate).value| >= 4
                     then StringOrNull(info.publishedDate) else None) == Success(d.year)
  {
    var items := fetch(BookRequestFor(query, genre, page)).items;
    var outcome := BookOutcome(guid, year, minRating);
    CollectMembers(outcome, Numbered(items));
    var k :| 0 <= k < |items| && outcome(Numbered(items)[k]) == Success(Some(d));
    assert Numbered(items)[k] == (k, items[k]);
  }

  // ---------------------------------------------------------------------------
  // The service's loops
  // ---------------------------------------------------------------------------

  /** The page requests of the search mode: pages 1..n, concatenated in page
      order; a failed request ends the search. */
  method FetchPool(fetch: MovieRequest -> Response<MovieItem>, query: string, releaseYear: Option<string>, n: nat)
    returns (allResults: Result<seq<MovieItem>, SearchFault>)
    ensures allResults == Pool(fetch, query, releaseYear, n)
  {
    var pool: seq<MovieItem> := [];
    for i := 1 to n + 1
      invariant Pool(fetch, query, releaseYear, i - 1) == Success(pool)
    {
      var response := fetch(SearchPage(query, i, releaseYear));
      if response.Failed? {
        PoolFailureSticks(fetch, query, releaseYear, i, n);
        return Failure(FetchFailed);
      }
      if response.Results? {
        pool := pool + response.items;
      }
    }
    return Success(pool);
  }

  /** One pass of the search-mode loop body over an item. */
  method FilterMovie(item: MovieItem, genreId: Option<int>, year: Option<string>, minRating: Option<int>)
    returns (r: Result<Option<ContentDto>, SearchFault>)
    ensures r == MovieOutcome(genreId, year, minRating)(item)
  {
    if genreId.Some? {
      if item.genreIds.None? {
        return Failure(MissingProperty);
      }
      if genreId.value !in item.genreIds.value {
        return Success(None);
      }
    }
    var rating := if item.voteAverage.Some? then item.voteAverage.value else 0;
    if minRating.Some? && rating < minRating.value {
      return Success(None);
    }
    if !IsNullOrEmpty(year) && '-' in year.value {
      var dateStr := if item.releaseDate == Absent then Some("") else StringOrNull(item.releaseDate);
      if IsNullOrEmpty(dateStr) || |dateStr.value| < 4 {
        return Success(None);
      }
      var movieYear := ParseInt(dateStr.value[..4]);
      if movieYear.None? {
        return Failure(BadNumber);
      }
      var outside := OutsideRange(movieYear.value, year.value);
      if outside.Failure? {
        return Failure(outside.error);
      }
      if outside.value {
        return Success(None);
      }
    }
    var dto := MapToDto(item, "movie");
    if dto.Failure? {
      return Failure(dto.error);
    }
    return Success(Some(dto.value));
  }

  /** A foreach loop over items that collects the DTO of every item not
      skipped and stops at the first exception. */
  method CollectLoop<T>(outcome: T -> Result<Option<ContentDto>, SearchFault>, items: seq<T>)
    returns (contents: Result<seq<ContentDto>, SearchFault>)
    ensures contents == CollectAll(outcome, items)
  {
    var acc: seq<ContentDto> := [];
    for i := 0 to |items|
      invariant CollectAll(outcome, items[..i]) == Success(acc)
    {
      assert items[..i + 1] == items[..i] + [items[i]];
      CollectSnoc(outcome, items[..i], items[i]);
      var r := outcome(items[i]);
      if r.Failure? {
        CollectFailureSticks(outcome, items, i + 1);
        return Failure(r.error);
      }
      if r.value.None? {
        continue;
      }
      acc := acc + [r.value.value];
    }
    assert items[..|items|] == items;
    return Success(acc);
  }

  /** The search-mode loop: each item through the filters and MapToDto. */
  method FilterPool(pool: seq<MovieItem>, genreId: Option<int>, year: Option<string>, minRating: Option<int>)
    returns (contents: Result<seq<ContentDto>, SearchFault>)
    ensures contents == CollectAll(MovieOutcome(genreId, year, minRating), pool)
  {
    var outcome := MovieOutcome(genreId, year, minRating);
    var acc: seq<ContentDto> := [];
    for i := 0 to |pool|
      invariant CollectAll(outcome, pool[..i]) == Success(acc)
    {
      assert pool[..i + 1] == pool[..i] + [pool[i]];
      CollectSnoc(outcome, pool[..i], pool[i]);
      var r := FilterMovie(pool[i], genreId, year, minRating);
      if r.Failure? {
        CollectFailureSticks(outcome, pool, i + 1);
        return Failure(r.error);
      }
      if r.value.None? {
        continue;
      }
      acc := acc + [r.value.value];
    }
    assert pool[..|pool|] == pool;
    return Success(acc);
  }

  /** The discover-mode mapping of one result. */
  function DiscoverOutcome(item: MovieItem): Result<Option<ContentDto>, SearchFault>
  {
    match MapToDto(item, "movie")
    case Failure(f) => Failure(f)
    case Success(d) => Success(Some(d))
  }

  /** SearchMoviesAsync: with a query, build the pool from the requested
      pages, filter it and cut the page; without one, map the discover
      results. An exception anywhere gives []. */
  method SearchMovies(fetch: MovieRequest -> Response<MovieItem>, query: Option<string>, genre: Option<string>,
                      year: Option<string>, minRating: Option<int>, page: int)
    returns (result: seq<ContentDto>)
    ensures result == SearchMoviesResult(fetch, query, genre, year, minRating, page)
  {
    var genreId := if !IsNullOrEmpty(genre) then GetGenreId(genre.value) else None;
    var hasFilters := genreId.Some? || !IsNullOrEmpty(year) || minRating.Some?;
    if !IsNullOrWhiteSpace(query) {
      var pagesToFetch := if hasFilters then FilteredSearchPages else 1;
      var releaseYear := if !IsNullOrEmpty(year) && '-' !in year.value then year else None;
      var allResults := FetchPool(fetch, query.value, releaseYear, pagesToFetch);
      if allResults.Failure? {
        return [];
      }
      var contents := FilterPool(allResults.value, genreId, year, minRating);
      if contents.Failure? {
        return [];
      }
      result := Window(contents.value, PageOffset(page), PageSize);
    } else {
      var response := fetch(Discover(page, genreId, minRating, YearParam(year)));
      if !response.Results? {
        return [];
      }
      var contents := CollectLoop(DiscoverOutcome, response.items);
      if contents.Failure? {
        return [];
      }
      result := Take(contents.value, PageSize);
    }
  }

  /** SearchBooksAsync: one request, then the loop over its results. */
  method SearchBooks(fetch: BookRequest -> Response<BookItem>, guid: nat -> string, query: Option<string>,
                     genre: Option<string>, year: Option<string>, minRating: Option<int>, page: int)
    returns (contents: seq<ContentDto>)
    ensures contents == SearchBooksResult(fetch, guid, query, genre, year, minRating, page)
  {
    var response := fetch(BookRequestFor(query, genre, page));
    if !response.Results? {
      return [];
    }
    var collected := CollectLoop(BookOutcome(guid, year, minRating), Numbered(response.items));
    if collected.Failure? {
      return [];
    }
    contents := collected.value;
  }
}
