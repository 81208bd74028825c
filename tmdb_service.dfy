/** Catalog lookup (cinegram/services/tmdb_service.py): the staged, progressively relaxed
    search over the catalog's search endpoint, the poster URL and the genre names. The HTTP
    endpoint and the translation service are oracles passed in by the caller. */
module TmdbService {
  import opened Common
  import opened PyStrings

  /** One catalog entry, as `movie.get(...)` reads it; a missing or null entry is `None`.
      `voteAverage` is kept as the text `str(round(vote_average, 1))` would print. */
  datatype Movie = Movie(
    title: Option<string>,
    overview: Option<string>,
    releaseDate: Option<string>,
    posterPath: Option<string>,
    genreIds: Option<seq<int>>,
    voteAverage: Option<string>)

  /** The `params` dict of one search request. */
  datatype Request = Request(apiKey: string, query: string, language: string, page: int, year: Option<string>)

  /** The endpoint's answer: a `RequestException` (connection failure, undecodable body), or a
      response with its status (`ok` for 2xx) and its `results` list. */
  datatype Reply = TransportError | Response(ok: bool, results: seq<Movie>)

  /** The outcome of one `search_movie` call: the record returned and the requests made. */
  datatype Search = Search(found: Option<Movie>, requests: seq<Request>)

  /** Where the noise-suffix stage stopped: its requests, the `params` dict as it left it,
      the last `results`, and whether a request raised. */
  datatype Relaxation = Relaxation(requests: seq<Request>, params: Request, results: seq<Movie>, failed: bool)

  const Spanish: string := "es-MX"
  const English: string := "en-US"
  const ImageBaseUrl: string := "https://image.tmdb.org/t/p/original"
  const NoiseSuffixes: seq<string> := [" La Pelicula", " La Película", " The Movie", " El Film"]

  /** `params["year"]` is set only for a truthy year. */
  function YearParam(year: Option<string>): Option<string> {
    if Truthy(year) then year else None
  }

  /** `title.lower().replace(noise.lower(), "").strip()` */
  function Relaxed(title: string, noise: string): string
    requires noise != []
  {
    Strip(ReplaceAll(Lower(title), Lower(noise), ""))
  }

  /** The returned record: the catalog entry, with its overview translated when it is
      non-empty and the last request was the English one. */
  function Pick(movie: Movie, language: string, translate: string -> string): (r: Movie)
    ensures r == movie.(overview := r.overview)
    ensures language != English || !Truthy(movie.overview) ==> r == movie
    ensures language == English && Truthy(movie.overview) ==> r.overview == Some(translate(movie.overview.value))
  {
    if Truthy(movie.overview) && language == English then movie.(overview := Some(translate(movie.overview.value)))
    else movie
  }

  predicate NonEmptyAll(suffixes: seq<string>) {
    forall k :: 0 <= k < |suffixes| ==> suffixes[k] != []
  }

  /** The queries of the noise-suffix stage: for each suffix found (case-insensitively) in
      the title, in order, the title relaxed by it. */
  function RelaxedQueries(title: string, suffixes: seq<string>): seq<string>
    requires NonEmptyAll(suffixes)
  {
    if suffixes == [] then []
    else
      var rest := RelaxedQueries(title, suffixes[1..]);
      if Contains(Lower(title), Lower(suffixes[0])) then [Relaxed(title, suffixes[0])] + rest else rest
  }

  /** Each stage-two query is the title relaxed by a suffix that occurs in it. */
  lemma {:induction false} RelaxedQueriesFromSuffixes(title: string, suffixes: seq<string>, k: nat)
    requires NonEmptyAll(suffixes) && k < |RelaxedQueries(title, suffixes)|
    ensures exists n ::
      n in suffixes && n != [] && Contains(Lower(title), Lower(n)) && RelaxedQueries(title, suffixes)[k] == Relaxed(title, n)
  {
    var rest := RelaxedQueries(title, suffixes[1..]);
    if Contains(Lower(title), Lower(suffixes[0])) {
      if k > 0 {
        RelaxedQueriesFromSuffixes(title, suffixes[1..], k - 1);
        var n :| n in suffixes[1..] && n != [] && Contains(Lower(title), Lower(n)) && rest[k - 1] == Relaxed(title, n);
        assert n in suffixes;
      } else {
        assert suffixes[0] in suffixes;
      }
    } else {
      RelaxedQueriesFromSuffixes(title, suffixes[1..], k);
      var n :| n in suffixes[1..] && n != [] && Contains(Lower(title), Lower(n)) && rest[k] == Relaxed(title, n);
      assert n in suffixes;
    }
  }

  /** The noise-suffix stage over its queries, in Spanish, with the year entry kept; it stops
      at the first request that raises or returns results. */
  function RelaxFrom(params: Request, queries: seq<string>, catalog: Request -> Reply): (t: Relaxation)
    decreases |queries|
  {
    if queries == [] then Relaxation([], params, [], false)
    else
      var p := params.(query := queries[0], language := Spanish);
      match catalog(p)
      case TransportError => Relaxation([p], p, [], true)
      case Response(_, rs) =>
        if rs != [] then Relaxation([p], p, rs, false)
        else
          var t := RelaxFrom(p, queries[1..], catalog);
          t.(requests := [p] + t.requests)
  }

  /** The stage's requests are the incoming `params` with the successive queries, in Spanish,
      and it leaves `params` as its last request. */
  lemma {:induction false} RelaxRequests(params: Request, queries: seq<string>, catalog: Request -> Reply)
    ensures var t := RelaxFrom(params, queries, catalog);
      |t.requests| <= |queries|
      && (forall k :: 0 <= k < |t.requests| ==> t.requests[k] == params.(query := queries[k], language := Spanish))
      && t.params == if t.requests == [] then params else t.requests[|t.requests| - 1]
    decreases |queries|
  {
    if queries != [] {
      var p := params.(query := queries[0], language := Spanish);
      RelaxRequests(p, queries[1..], catalog);
    }
  }

  /** The stage stops at the first request that raised or answered with results: every
      earlier request answered with none; it runs every query when all come back empty. */
  lemma {:induction false} RelaxStopsAtFirstHit(params: Request, queries: seq<string>, catalog: Request -> Reply)
    ensures var t := RelaxFrom(params, queries, catalog);
      (forall k :: 0 <= k < |t.requests| - 1 ==>
        catalog(t.requests[k]).Response? && catalog(t.requests[k]).results == [])
      && (t.requests == [] ==> queries == [] && !t.failed && t.results == [])
      && (t.failed ==> t.requests != [] && catalog(t.requests[|t.requests| - 1]).TransportError? && t.results == [])
      && (!t.failed && t.requests != [] ==>
           catalog(t.requests[|t.requests| - 1]).Response? && catalog(t.requests[|t.requests| - 1]).results == t.results)
      && (!t.failed && t.results == [] ==> |t.requests| == |queries|)
    decreases |queries|
  {
    if queries != [] {
      var p := params.(query := queries[0], language := Spanish);
      if catalog(p).Response? && catalog(p).results == [] {
        RelaxStopsAtFirstHit(p, queries[1..], catalog);
      }
    }
  }

  /** The Spanish stages, after a first request that answered with a 2xx status: that
      request alone when it found something, otherwise followed by the noise-suffix stage. */
  function SpanishStages(first: Request, title: string, catalog: Request -> Reply): Relaxation
    requires catalog(first).Response?
  {
    var rs := catalog(first).results;
    if rs != [] then Relaxation([first], first, rs, false)
    else
      var t := RelaxFrom(first, RelaxedQueries(title, NoiseSuffixes), catalog);
      t.(requests := [first] + t.requests)
  }

  /** After the Spanish stages: nothing when a request raised, the first result when they
      found one, and otherwise the English request on the original title and its first result. */
  function Conclude(t: Relaxation, title: string, catalog: Request -> Reply, translate: string -> string): Search {
    if t.failed then Search(None, t.requests)
    else if t.results != [] then Search(Some(Pick(t.results[0], t.params.language, translate)), t.requests)
    else
      var last := t.params.(query := title, language := English);
      var requests := t.requests + [last];
      match catalog(last)
      case TransportError => Search(None, requests)
      case Response(ok, rs) =>
        if !ok || rs == [] then Search(None, requests)
        else Search(Some(Pick(rs[0], English, translate)), requests)
  }

  /** `search_movie(title, year)` as a value: the three stages, each run only when the
      previous ones found nothing, returning the first result of the stage that found one. */
  function SearchSpec(apiKey: string, catalog: Request -> Reply, translate: string -> string,
                      title: string, year: Option<string>): (s: Search)
    ensures s.requests == [] <==> apiKey == []
    ensures |s.requests| <= |RelaxedQueries(title, NoiseSuffixes)| + 2
  {
    if apiKey == [] then Search(None, [])
    else
      var first := Request(apiKey, title, Spanish, 1, YearParam(year));
      if !catalog(first).Response? || !catalog(first).ok then Search(None, [first])
      else
        SpanishStagesRun(first, title, catalog);
        Conclude(SpanishStages(first, title, catalog), title, catalog, translate)
  }

  /** The Spanish stages start with the first request, go on with the relaxed queries in
      order, carry the last request as `params`, and stop at the first request that raised or
      found something. */
  lemma SpanishStagesRun(first: Request, title: string, catalog: Request -> Reply)
    requires catalog(first).Response?
    ensures var t := SpanishStages(first, title, catalog);
      var queries := RelaxedQueries(title, NoiseSuffixes);
      t.requests != [] && t.requests[0] == first && |t.requests| <= |queries| + 1
      && (forall k :: 1 <= k < |t.requests| ==> t.requests[k] == first.(query := queries[k - 1], language := Spanish))
      && t.params == t.requests[|t.requests| - 1]
      && (forall k :: 0 <= k < |t.requests| - 1 ==>
            catalog(t.requests[k]).Response? && catalog(t.requests[k]).results == [])
      && (t.failed ==> catalog(t.params).TransportError? && t.results == [])
      && (!t.failed ==> catalog(t.params).Response? && catalog(t.params).results == t.results)
  {
    var queries := RelaxedQueries(title, NoiseSuffixes);
    if catalog(first).results == [] {
      var u := RelaxFrom(first, queries, catalog);
      RelaxRequests(first, queries, catalog);
      RelaxStopsAtFirstHit(first, queries, catalog);
      var t := u.(requests := [first] + u.requests);
      assert forall k :: 1 <= k < |t.requests| ==> t.requests[k] == u.requests[k - 1];
    }
  }

  lemma RelaxedQueriesStep(title: string, suffixes: seq<string>, i: nat)
    requires NonEmptyAll(suffixes) && i < |suffixes|
    ensures RelaxedQueries(title, suffixes[i..]) ==
      if Contains(Lower(title), Lower(suffixes[i])) then [Relaxed(title, suffixes[i])] + RelaxedQueries(title, suffixes[i + 1..])
      else RelaxedQueries(title, suffixes[i + 1..])
  {
    assert suffixes[i..][1..] == suffixes[i + 1..];
  }

  /** One step of the noise-suffix stage. */
  lemma RelaxFromStep(params: Request, queries: seq<string>, catalog: Request -> Reply)
    requires queries != []
    ensures var p := params.(query := queries[0], language := Spanish);
      var t := RelaxFrom(params, queries, catalog);
      (catalog(p).TransportError? ==> t == Relaxation([p], p, [], true))
      && (catalog(p).Response? && catalog(p).results != [] ==> t == Relaxation([p], p, catalog(p).results, false))
      && (catalog(p).Response? && catalog(p).results == [] ==>
            var u := RelaxFrom(p, queries[1..], catalog); t == u.(requests := [p] + u.requests))
  {
  }

  /** The noise-suffix loop of `search_movie`: for each suffix found in the title, the
      `params` record is given the relaxed query and Spanish and sent; the loop stops at the
      first request that raises (`failed`) or returns results. */
  method RelaxStage(first: Request, title: string, suffixes: seq<string>, catalog: Request -> Reply)
      returns (params: Request, requests: seq<Request>, results: seq<Movie>, failed: bool)
    requires NonEmptyAll(suffixes)
    ensures Relaxation(requests, params, results, failed) == RelaxFrom(first, RelaxedQueries(title, suffixes), catalog)
  {
    ghost var goal := RelaxFrom(first, RelaxedQueries(title, suffixes), catalog);
    params, requests, results, failed := first, [], [], false;
    var i := 0;
    while i < |suffixes|
      invariant 0 <= i <= |suffixes| && results == [] && !failed
      invariant goal == var t := RelaxFrom(params, RelaxedQueries(title, suffixes[i..]), catalog);
        t.(requests := requests + t.requests)
    {
      var noise := suffixes[i];
      ghost var rest := RelaxedQueries(title, suffixes[i + 1..]);
      RelaxedQueriesStep(title, suffixes, i);
      if Contains(Lower(title), Lower(noise)) {
        ghost var queries := [Relaxed(title, noise)] + rest;
        assert RelaxedQueries(title, suffixes[i..]) == queries;
        RelaxFromStep(params, queries, catalog);
        assert queries[1..] == rest;
        params := params.(query := Relaxed(title, noise), language := Spanish);
        ghost var before := requests;
        requests := requests + [params];
        var reply := catalog(params);
        if reply.TransportError? {
          return params, requests, [], true;
        }
        results := reply.results;
        if results != [] {
          return;
        }
        ghost var u := RelaxFrom(params, rest, catalog);
        assert before + ([params] + u.requests) == requests + u.requests;
      }
      i := i + 1;
    }
    assert suffixes[i..] == [];
    assert requests + [] == requests;
  }

  /** `TmdbService.search_movie`: one `params` record carried through the stages; the year
      entry persists, the query and language are overwritten. */
  method SearchMovie(apiKey: string, catalog: Request -> Reply, translate: string -> string,
                     title: string, year: Option<string>) returns (found: Option<Movie>, requests: seq<Request>)
    ensures Search(found, requests) == SearchSpec(apiKey, catalog, translate, title, year)
  {
    if apiKey == [] {
      return None, [];
    }
    var params := Request(apiKey, title, Spanish, 1, None);
    if Truthy(year) {
      params := params.(year := year);
    }
    requests := [params];
    var reply := catalog(params);
    if !reply.Response? || !reply.ok {
      return None, requests;
    }
    var results := reply.results;
    if results == [] {
      var relaxed, failed;
      params, relaxed, results, failed := RelaxStage(params, title, NoiseSuffixes, catalog);
      requests := requests + relaxed;
      if failed {
        return None, requests;
      }
    }
    if results == [] {
      params := params.(query := title, language := English);
      requests := requests + [params];
      reply := catalog(params);
      if !reply.Response? || !reply.ok {
        return None, requests;
      }
      results := reply.results;
    }
    if results != [] {
      found := Some(Pick(results[0], params.language, translate));
    } else {
      found := None;
    }
  }

  /** `TmdbService.get_poster_url`: `None` for an empty or missing path, else base + path. */
  function PosterUrl(posterPath: Option<string>): (r: Option<string>)
    ensures r.None? <==> !Truthy(posterPath)
    ensures r.Some? ==> StartsWith(r.value, ImageBaseUrl) && r.value[|ImageBaseUrl|..] == posterPath.value
  {
    if !Truthy(posterPath) then None else Some(ImageBaseUrl + posterPath.value)
  }

  /** The simplified genre table, "Cine" for an unknown id. */
  function GenreName(id: int): string {
    match id
    case 28 => "Acción"
    case 12 => "Aventura"
    case 16 => "Animación"
    case 35 => "Comedia"
    case 80 => "Crimen"
    case 99 => "Documental"
    case 18 => "Drama"
    case 10751 => "Familia"
    case 14 => "Fantasía"
    case 36 => "Historia"
    case 27 => "Terror"
    case 10402 => "Música"
    case 9648 => "Misterio"
    case 10749 => "Romance"
    case 878 => "Ciencia Ficción"
    case 10770 => "Película de TV"
    case 53 => "Suspense"
    case 10752 => "Bélica"
    case 37 => "Western"
    case _ => "Cine"
  }

  /** Every genre name is a non-empty text without surrounding whitespace... */
  lemma GenreNameTrimmed(id: int)
    ensures GenreName(id) != []
    ensures !IsSpace(GenreName(id)[0]) && !IsSpace(GenreName(id)[|GenreName(id)| - 1])
  {
    GenreNameStarts(id);
    GenreNameEnds(id);
  }

  lemma GenreNameStarts(id: int)
    ensures GenreName(id) != [] && !IsSpace(GenreName(id)[0])
  {
  }

  lemma GenreNameEnds(id: int)
    ensures GenreName(id) != [] && !IsSpace(GenreName(id)[|GenreName(id)| - 1])
  {
  }

  /** ...and without a comma, so the joined genre text splits back into the names. */
  lemma GenreNameNoComma(id: int)
    ensures ',' !in GenreName(id)
  {
    // Splitting the table in two keeps each half of the proof small.
    if id in {28, 12, 16, 35, 80, 99, 18, 10751, 14, 36} {
      assert ',' !in GenreName(id);
    } else {
      assert ',' !in GenreName(id);
    }
  }

  /** The names of the first two ids. */
  function GenreNames(ids: seq<int>): (names: seq<string>)
    ensures |names| == if |ids| < 2 then |ids| else 2
    ensures forall k :: 0 <= k < |names| ==> names[k] == GenreName(ids[k])
  {
    var firstTwo := if |ids| < 2 then ids else ids[..2];
    seq(|firstTwo|, k requires 0 <= k < |firstTwo| => GenreName(firstTwo[k]))
  }

  /** `TmdbService.get_genres`: `", ".join(...)` of the names of the first two ids. */
  function GetGenres(ids: seq<int>): (genres: string)
    ensures ids == [] ==> genres == []
    ensures |ids| == 1 ==> genres == GenreName(ids[0])
    ensures |ids| >= 2 ==> genres == GenreName(ids[0]) + ", " + GenreName(ids[1])
  {
    var names := GenreNames(ids);
    assert |names| >= 2 ==> names[1..] == [names[1]] && Join(", ", names[1..]) == names[1];
    Join(", ", names)
  }

  /** The genre text is empty exactly when there are no ids. */
  lemma GenresEmpty(ids: seq<int>)
    ensures GetGenres(ids) == [] <==> ids == []
  {
    var names := GenreNames(ids);
    forall k | 0 <= k < |names| ensures names[k] != [] { GenreNameTrimmed(ids[k]); }
    JoinEmpty(", ", names);
  }

  // ---- Properties of the staged search ----

  /** With no key configured nothing is requested and nothing is found. */
  lemma SearchNeedsKey(catalog: Request -> Reply, translate: string -> string, title: string, year: Option<string>)
    ensures SearchSpec([], catalog, translate, title, year) == Search(None, [])
  {
  }

  /** Every request carries the key, page 1 and the year entry of the first one (set iff the
      year is truthy); the first queries the title as given, in Spanish. */
  lemma RequestsKeepParameters(apiKey: string, catalog: Request -> Reply, translate: string -> string,
                               title: string, year: Option<string>)
    requires apiKey != []
    ensures var s := SearchSpec(apiKey, catalog, translate, title, year);
      |s.requests| >= 1 && s.requests[0] == Request(apiKey, title, Spanish, 1, YearParam(year))
      && forall k :: 0 <= k < |s.requests| ==>
           s.requests[k].apiKey == apiKey && s.requests[k].page == 1 && s.requests[k].year == YearParam(year)
  {
    var first := Request(apiKey, title, Spanish, 1, YearParam(year));
    if catalog(first).Response? && catalog(first).ok {
      SpanishStagesRun(first, title, catalog);
    }
  }

  /** A request in Spanish after the first one queries the lower-cased title with one noise
      suffix that occurs in it removed and the result trimmed. */
  lemma RelaxedRequests(apiKey: string, catalog: Request -> Reply, translate: string -> string,
                        title: string, year: Option<string>, k: nat)
    requires var s := SearchSpec(apiKey, catalog, translate, title, year);
      0 < k < |s.requests| && s.requests[k].language == Spanish
    ensures var s := SearchSpec(apiKey, catalog, translate, title, year);
      exists n :: n in NoiseSuffixes && Contains(Lower(title), Lower(n)) && s.requests[k].query == Relaxed(title, n)
  {
    var first := Request(apiKey, title, Spanish, 1, YearParam(year));
    var t := SpanishStages(first, title, catalog);
    SpanishStagesRun(first, title, catalog);
    assert k < |t.requests|;
    RelaxedQueriesFromSuffixes(title, NoiseSuffixes, k - 1);
  }

  /** Each stage runs only when everything before it came back empty: every request but the
      last answered with no results. */
  lemma StagesRunInOrder(apiKey: string, catalog: Request -> Reply, translate: string -> string,
                         title: string, year: Option<string>)
    ensures var s := SearchSpec(apiKey, catalog, translate, title, year);
      forall k :: 0 <= k < |s.requests| - 1 ==>
        catalog(s.requests[k]).Response? && catalog(s.requests[k]).results == []
  {
    var first := Request(apiKey, title, Spanish, 1, YearParam(year));
    if apiKey != [] && catalog(first).Response? && catalog(first).ok {
      SpanishStagesRun(first, title, catalog);
    }
  }

  /** The English request, if any, is the last one and queries the original title with the
      year entry kept. */
  lemma EnglishComesLast(apiKey: string, catalog: Request -> Reply, translate: string -> string,
                         title: string, year: Option<string>)
    ensures var s := SearchSpec(apiKey, catalog, translate, title, year);
      forall k :: 0 <= k < |s.requests| && s.requests[k].language == English ==>
        k == |s.requests| - 1 && s.requests[k] == Request(apiKey, title, English, 1, YearParam(year))
  {
    var first := Request(apiKey, title, Spanish, 1, YearParam(year));
    if apiKey != [] && catalog(first).Response? && catalog(first).ok {
      SpanishStagesRun(first, title, catalog);
    }
  }

  /** The English stage is reached when the first request answered with no results and no
      relaxed request raised or found anything. */
  lemma EnglishFallbackReached(apiKey: string, catalog: Request -> Reply, translate: string -> string,
                               title: string, year: Option<string>)
    requires apiKey != []
    requires catalog(Request(apiKey, title, Spanish, 1, YearParam(year))) == Response(true, [])
    requires var t := RelaxFrom(Request(apiKey, title, Spanish, 1, YearParam(year)), RelaxedQueries(title, NoiseSuffixes), catalog);
      !t.failed && t.results == []
    ensures var s := SearchSpec(apiKey, catalog, translate, title, year);
      s.requests[|s.requests| - 1] == Request(apiKey, title, English, 1, YearParam(year))
  {
    var first := Request(apiKey, title, Spanish, 1, YearParam(year));
    SpanishStagesRun(first, title, catalog);
  }

  /** The record found is the first result of the last request, translated only when that
      request was the English one. When nothing is found, no request got a 2xx answer with
      results; the converse fails, since a relaxed-stage answer with results is taken whatever
      its status. */
  lemma FoundIsFirstResult(apiKey: string, catalog: Request -> Reply, translate: string -> string,
                           title: string, year: Option<string>)
    ensures var s := SearchSpec(apiKey, catalog, translate, title, year);
      s.found.Some? ==>
        var last := s.requests[|s.requests| - 1];
        catalog(last).Response? && catalog(last).results != []
        && s.found.value == Pick(catalog(last).results[0], last.language, translate)
    ensures var s := SearchSpec(apiKey, catalog, translate, title, year);
      s.found.None? ==> forall k :: 0 <= k < |s.requests| ==>
        !(catalog(s.requests[k]).Response? && catalog(s.requests[k]).ok && catalog(s.requests[k]).results != [])
  {
    var first := Request(apiKey, title, Spanish, 1, YearParam(year));
    if apiKey != [] && catalog(first).Response? && catalog(first).ok {
      SpanishStagesRun(first, title, catalog);
    }
  }
}
