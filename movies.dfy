/**
 * Movie records as the provider builds them: for each movie found by a
 * search, its credits and its details are fetched and merged into one flat
 * record, written back into the search result list at the same position.
 */
module Movies {
  import opened Wrappers
  import opened Seqs

  type MovieId = int

  /** An entry of a movie's `crew` credits. */
  datatype CrewMember = CrewMember(name: string, job: string)

  /** An entry of a movie's `cast` credits. */
  datatype CastMember = CastMember(name: string)

  /** An entry of a movie's `genres`, also an entry of the genre list. */
  datatype MovieGenre = MovieGenre(id: int, name: string)

  /** The credits resource of one movie. */
  datatype Credits = Credits(crew: seq<CrewMember>, cast: seq<CastMember>)

  /** The details resource of one movie: its title, IMDb identifier and genres. */
  datatype Details = Details(title: string, imdbId: string, genres: seq<MovieGenre>)

  /**
   * The merged record. Field for field it is the object literal that
   * `_formatMovieData` builds, where four of the names are spelt `SOURCE`,
   * `MEDIA`, `filmandbookgenre` and `movieorseries`; the `null` fields are `None`.
   */
  datatype MovieRecord = MovieRecord(
    link: string,
    source: string,
    media: string,
    name: string,
    tags: Option<seq<string>>,
    filmAndBookGenre: seq<string>,
    country: Option<string>,
    language: Option<string>,
    subtitle: Option<string>,
    director: seq<string>,
    cast: seq<string>,
    movieOrSeries: string)

  /** A slot of the search result list: still the search's stub, or the record that replaced it. */
  datatype Movie = Stub(id: MovieId) | Record(record: MovieRecord)

  const DirectorJob := "Director"
  const ImdbTitleUrl := "http://www.imdb.com/title/"

  predicate IsDirector(m: CrewMember) { m.job == DirectorJob }
  function CrewName(m: CrewMember): string { m.name }
  function CastName(c: CastMember): string { c.name }
  function GenreName(g: MovieGenre): string { g.name }

  /** The names of the crew members whose job is exactly "Director", in crew order, duplicates kept. */
  function Directors(crew: seq<CrewMember>): (names: seq<string>)
    ensures |names| <= |crew|
  {
    Map(CrewName, Filter(IsDirector, crew))
  }

  /** A name is among the directors exactly when some crew member of that name has the job "Director". */
  lemma DirectorsNamed(crew: seq<CrewMember>, n: string)
    ensures n in Directors(crew) <==> exists m :: m in crew && IsDirector(m) && m.name == n
  {
    var directors := Filter(IsDirector, crew);
    if n in Directors(crew) {
      var k :| 0 <= k < |directors| && Directors(crew)[k] == n;
      FilterCount(IsDirector, crew, directors[k]);
    }
    if m :| m in crew && IsDirector(m) && m.name == n {
      FilterCount(IsDirector, crew, m);
      var k :| 0 <= k < |directors| && directors[k] == m;
      assert Directors(crew)[k] == n;
    }
  }

  /**
   * Directors of a concatenation are the directors of each part in turn; with
   * `Directors([m])` being `[m.name]` for a director and `[]` otherwise, this
   * fixes both the order and the multiplicity of the names.
   */
  lemma DirectorsAppend(a: seq<CrewMember>, b: seq<CrewMember>)
    ensures Directors(a + b) == Directors(a) + Directors(b)
  {
    FilterAppend(IsDirector, a, b);
    MapAppend(CrewName, Filter(IsDirector, a), Filter(IsDirector, b));
  }

  /** Every record carries the same provenance tags and `null`s. */
  predicate HasFixedTags(r: MovieRecord) {
    && r.source == "themoviedb"
    && r.media == "video"
    && r.movieOrSeries == "movie"
    && r.tags.None? && r.country.None? && r.language.None? && r.subtitle.None?
  }

  /** The record built from one movie's credits and details. */
  function FormatRecord(credits: Credits, details: Details): (r: MovieRecord)
    ensures r.director == Directors(credits.crew)
    ensures |r.cast| == |credits.cast| &&
            forall k :: 0 <= k < |r.cast| ==> r.cast[k] == credits.cast[k].name
    ensures |r.filmAndBookGenre| == |details.genres| &&
            forall k :: 0 <= k < |r.filmAndBookGenre| ==> r.filmAndBookGenre[k] == details.genres[k].name
    ensures r.name == details.title
    ensures |ImdbTitleUrl| <= |r.link| && r.link[..|ImdbTitleUrl|] == ImdbTitleUrl &&
            r.link[|ImdbTitleUrl|..] == details.imdbId
    ensures HasFixedTags(r)
  {
    MovieRecord(
      link := ImdbTitleUrl + details.imdbId,
      source := "themoviedb",
      media := "video",
      name := details.title,
      tags := None,
      filmAndBookGenre := Map(GenreName, details.genres),
      country := None,
      language := None,
      subtitle := None,
      director := Directors(credits.crew),
      cast := Map(CastName, credits.cast),
      movieOrSeries := "movie")
  }

  /** Both sub-requests for movie `id` succeeded. */
  predicate Fetched(id: MovieId, credits: MovieId -> Option<Credits>, details: MovieId -> Option<Details>) {
    credits(id).Some? && details(id).Some?
  }

  /**
   * What one slot holds once its two requests have settled: the record when
   * both succeeded, otherwise the untouched stub.
   */
  function Enriched(m: Movie, credits: MovieId -> Option<Credits>, details: MovieId -> Option<Details>): (r: Movie)
    requires m.Stub?
    ensures r.Record? <==> Fetched(m.id, credits, details)
    ensures r.Stub? ==> r == m
  {
    if Fetched(m.id, credits, details) then
      Record(FormatRecord(credits(m.id).value, details(m.id).value))
    else m
  }

  /**
   * `_formatMovieData`: every stub of `movies` is replaced, at its own index,
   * by the record of its credits and details. `credits` and `details` stand
   * for the two requests per movie (`None` is a failed request). The batch
   * succeeds only if every request did; a failed one leaves its stub in place
   * while the other slots are still filled in.
   */
  method FormatMovieData(movies: array<Movie>, credits: MovieId -> Option<Credits>,
                         details: MovieId -> Option<Details>) returns (ok: bool)
    requires forall i :: 0 <= i < movies.Length ==> movies[i].Stub?
    modifies movies
    ensures ok <==> forall i :: 0 <= i < movies.Length ==> Fetched(old(movies[i]).id, credits, details)
    ensures forall i :: 0 <= i < movies.Length ==> movies[i] == Enriched(old(movies[i]), credits, details)
    ensures ok ==> forall i :: 0 <= i < movies.Length ==> movies[i].Record?
  {
    ok := true;
    for index := 0 to movies.Length
      invariant forall i :: 0 <= i < index ==> movies[i] == Enriched(old(movies[i]), credits, details)
      invariant forall i :: index <= i < movies.Length ==> movies[i] == old(movies[i])
      invariant ok <==> forall i :: 0 <= i < index ==> Fetched(old(movies[i]).id, credits, details)
    {
      var movie := movies[index];
      var creditResult, movieResult := credits(movie.id), details(movie.id);
      if creditResult.Some? && movieResult.Some? {
        movies[index] := Record(FormatRecord(creditResult.value, movieResult.value));
      } else {
        ok := false;
      }
    }
  }
}
