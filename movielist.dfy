/**
 * The movie list component: its state (the fetched records, the sort
 * setting, the three filters and the current page), the handlers that change
 * that state, and the memoised pipeline that turns it into the ten records on
 * screen: copy, filter by text, genre and status, sort, and cut out the page.
 */
module MovieListView {
  import opened Wrappers
  import opened Records
  import opened Filters
  import opened Sorting
  import opened Paging

  /** The sort setting the list starts with, and falls back to after a
      third click on the same button. */
  const DefaultSort := SortConfig(Popularity, Desc)

  /** The message stored when the service answers with an error status. */
  const NetworkError := "Erreur réseau"

  /** `sortMovies(key)`: a click on a new key sorts by it in descending order;
      a click on the current key flips descending to ascending, and a click
      on an ascending key goes back to the default. */
  function NextSortConfig(cfg: SortConfig, key: SortKey): (r: SortConfig)
    ensures cfg.key != key ==> r == SortConfig(key, Desc)
    ensures cfg == SortConfig(key, Desc) ==> r == SortConfig(key, Asc)
    ensures cfg == SortConfig(key, Asc) ==> r == DefaultSort
    ensures r.key == key || r == DefaultSort
  {
    if cfg.key == key && cfg.direction == Desc then SortConfig(key, Asc)
    else if cfg.key == key && cfg.direction == Asc then DefaultSort
    else SortConfig(key, Desc)
  }

  /** Clicking one button again and again comes back where it started: after
      three clicks for a key other than popularity, after two for popularity,
      whose descending order is the default. */
  lemma SortClicksCycle(cfg: SortConfig, key: SortKey)
    ensures cfg.key != key ==> NextSortConfig(NextSortConfig(NextSortConfig(cfg, key), key), key) == DefaultSort
    ensures cfg.key == key && key != Popularity
        ==> NextSortConfig(NextSortConfig(NextSortConfig(cfg, key), key), key) == cfg
    ensures cfg.key == key && key == Popularity ==> NextSortConfig(NextSortConfig(cfg, key), key) == cfg
  {
  }

  /** What the three filter stages let through together. */
  predicate AdmitsAll(query: string, genre: GenreChoice, status: StatusChoice,
                      favorites: seq<int>, watched: seq<int>, watchLater: seq<int>, m: Movie) {
    AdmitsText(query, m) && AdmitsGenre(genre, m) && AdmitsStatus(status, favorites, watched, watchLater, m)
  }

  /** The text, genre and status stages applied one after the other. */
  function Filtered(movies: seq<Movie>, query: string, genre: GenreChoice, status: StatusChoice,
                    favorites: seq<int>, watched: seq<int>, watchLater: seq<int>): (r: seq<Movie>)
    ensures |r| <= |movies|
    ensures forall x :: x in r <==> x in movies && AdmitsAll(query, genre, status, favorites, watched, watchLater, x)
  {
    StatusStage(GenreStage(TextStage(movies, query), genre), status, favorites, watched, watchLater)
  }

  /** The three stages in a row are one order-preserving filter by their
      conjunction: a subsequence of the records holding each admitted record
      as often as they do, and no other record. */
  lemma FilteredIsOneFilter(movies: seq<Movie>, query: string, genre: GenreChoice, status: StatusChoice,
                            favorites: seq<int>, watched: seq<int>, watchLater: seq<int>, x: Movie)
    ensures IsSubsequence(Filtered(movies, query, genre, status, favorites, watched, watchLater), movies)
    ensures multiset(Filtered(movies, query, genre, status, favorites, watched, watchLater))[x]
         == if AdmitsAll(query, genre, status, favorites, watched, watchLater, x) then multiset(movies)[x] else 0
  {
    var t := TextStage(movies, query);
    var g := GenreStage(t, genre);
    var f := StatusStage(g, status, favorites, watched, watchLater);
    TextStageIsExactFilter(movies, query, x);
    GenreStageIsExactFilter(t, genre, x);
    StatusStageIsExactFilter(g, status, favorites, watched, watchLater, x);
    SubsequenceTransitive(g, t, movies);
    SubsequenceTransitive(f, g, movies);
  }

  /** The records on screen: the filtered records, sorted, cut down to the
      current page's half of its source page. */
  function View(movies: seq<Movie>, query: string, genre: GenreChoice, status: StatusChoice,
                favorites: seq<int>, watched: seq<int>, watchLater: seq<int>,
                cfg: SortConfig, page: PageNumber): (r: seq<Movie>)
    ensures |r| <= ItemsPerPage
    ensures var n := |Filtered(movies, query, genre, status, favorites, watched, watchLater)|;
      |r| == if WindowStart(page) < n then Min(WindowStart(page) + ItemsPerPage, n) - WindowStart(page) else 0
    ensures forall x :: x in r ==> x in movies && AdmitsAll(query, genre, status, favorites, watched, watchLater, x)
    ensures query == "" && genre == AllGenres && status == AllStatuses ==> r == Window(StableSort(cfg, movies), page)
  {
    var f := Filtered(movies, query, genre, status, favorites, watched, watchLater);
    var sorted := StableSort(cfg, f);
    StableSortPermutes(cfg, f);
    assert forall x :: x in sorted ==> x in f by {
      forall x | x in sorted ensures x in f {
        assert x in multiset(sorted);
      }
    }
    Window(sorted, page)
  }

  /** The records on screen are sorted by the current setting, and on an odd
      page with at most ten admitted records they are all of those records. */
  lemma ViewIsSortedPage(movies: seq<Movie>, query: string, genre: GenreChoice, status: StatusChoice,
                         favorites: seq<int>, watched: seq<int>, watchLater: seq<int>,
                         cfg: SortConfig, page: PageNumber)
    ensures SortedBy(cfg, View(movies, query, genre, status, favorites, watched, watchLater, cfg, page))
    ensures page % 2 == 1 && |Filtered(movies, query, genre, status, favorites, watched, watchLater)| <= ItemsPerPage
        ==> (View(movies, query, genre, status, favorites, watched, watchLater, cfg, page)
             == StableSort(cfg, Filtered(movies, query, genre, status, favorites, watched, watchLater)))
  {
    SortedWindow(cfg, Filtered(movies, query, genre, status, favorites, watched, watchLater), page);
  }

  /** An odd page and the next one together show every admitted record of
      their source page, sorted, when there are at most 20 of them. */
  lemma PagesShowAllAdmitted(movies: seq<Movie>, query: string, genre: GenreChoice, status: StatusChoice,
                             favorites: seq<int>, watched: seq<int>, watchLater: seq<int>,
                             cfg: SortConfig, page: PageNumber)
    requires page % 2 == 1
    requires |Filtered(movies, query, genre, status, favorites, watched, watchLater)| <= SourcePageSize
    ensures View(movies, query, genre, status, favorites, watched, watchLater, cfg, page)
          + View(movies, query, genre, status, favorites, watched, watchLater, cfg, page + 1)
         == StableSort(cfg, Filtered(movies, query, genre, status, favorites, watched, watchLater))
  {
    PagesCoverSource(StableSort(cfg, Filtered(movies, query, genre, status, favorites, watched, watchLater)), page);
  }

  lemma SortedWindow(cfg: SortConfig, f: seq<Movie>, page: PageNumber)
    ensures SortedBy(cfg, Window(StableSort(cfg, f), page))
    ensures page % 2 == 1 && |f| <= ItemsPerPage ==> Window(StableSort(cfg, f), page) == StableSort(cfg, f)
  {
    var sorted := StableSort(cfg, f);
    StableSortSorts(cfg, f);
    SortedBlock(cfg, sorted, Window(sorted, page), WindowStart(page));
    if page % 2 == 1 && |f| <= ItemsPerPage {
      ShortSourceShownWhole(sorted, page);
    }
  }

  /** The three markers a card shows: whether its record is a favorite,
      watched, or to watch later. */
  datatype CardMarks = CardMarks(isFavorite: bool, isWatched: bool, isWatchLater: bool)

  function Marks(m: Movie, favorites: seq<int>, watched: seq<int>, watchLater: seq<int>): (r: CardMarks)
    ensures r.isFavorite <==> m.id in favorites
    ensures r.isWatched <==> m.id in watched
    ensures r.isWatchLater <==> m.id in watchLater
  {
    CardMarks(m.id in favorites, m.id in watched, m.id in watchLater)
  }

  /** Under a status filter every card on screen carries that status's
      marker. */
  lemma StatusFilterShowsMarkedCards(movies: seq<Movie>, query: string, genre: GenreChoice, status: StatusChoice,
                                     favorites: seq<int>, watched: seq<int>, watchLater: seq<int>,
                                     cfg: SortConfig, page: PageNumber)
    ensures forall x :: x in View(movies, query, genre, status, favorites, watched, watchLater, cfg, page) ==>
      (status == FavoritesOnly ==> Marks(x, favorites, watched, watchLater).isFavorite) &&
      (status == WatchedOnly ==> Marks(x, favorites, watched, watchLater).isWatched) &&
      (status == WatchLaterOnly ==> Marks(x, favorites, watched, watchLater).isWatchLater)
  {
  }

  /** The state of one movie list. */
  class MovieList {
    /** Records handed in by the parent instead of being fetched; the parent
        passes a new list whenever its collection changes. */
    var manualMovies: Option<seq<Movie>>
    var movies: seq<Movie>
    var isLoading: bool
    var error: Option<string>
    var sortConfig: SortConfig
    var searchQuery: string
    var selectedGenre: GenreChoice
    var selectedStatus: StatusChoice
    var currentPage: PageNumber

    /** The state on first render. */
    constructor(manualMovies: Option<seq<Movie>>)
      ensures this.manualMovies == manualMovies
      ensures movies == [] && isLoading == manualMovies.None? && error == None
      ensures sortConfig == DefaultSort && searchQuery == ""
      ensures selectedGenre == AllGenres && selectedStatus == AllStatuses && currentPage == 1
    {
      this.manualMovies := manualMovies;
      movies := [];
      isLoading := manualMovies.None?;
      error := None;
      sortConfig := DefaultSort;
      searchQuery := "";
      selectedGenre := AllGenres;
      selectedStatus := AllStatuses;
      currentPage := 1;
    }

    /** The loading effect, run on mount and whenever the page changes: with
        manual records it shows them; otherwise it clears the error, starts
        loading, and asks for the source page that holds the current page. */
    method BeginLoad() returns (request: Option<PageNumber>)
      modifies this
      ensures manualMovies == old(manualMovies)
      ensures manualMovies.Some? ==> movies == manualMovies.value && !isLoading
                                     && error == old(error) && request == None
      ensures manualMovies.None? ==> movies == old(movies) && isLoading && error == None
                                     && request == Some(SourcePage(currentPage))
      ensures sortConfig == old(sortConfig) && searchQuery == old(searchQuery)
      ensures selectedGenre == old(selectedGenre) && selectedStatus == old(selectedStatus)
      ensures currentPage == old(currentPage)
    {
      if manualMovies.Some? {
        movies := manualMovies.value;
        isLoading := false;
        request := None;
        return;
      }
      isLoading := true;
      error := None;
      request := Some(SourcePage(currentPage));
    }

    /** The parent passes a new `manualMovies`: the loading effect depends on
        it and runs again, while sort, filters and page stay as they are. */
    method ReceiveManualMovies(ms: Option<seq<Movie>>) returns (request: Option<PageNumber>)
      modifies this
      ensures manualMovies == ms
      ensures ms.Some? ==> movies == ms.value && !isLoading && error == old(error) && request == None
      ensures ms.None? ==> movies == old(movies) && isLoading && error == None
                           && request == Some(SourcePage(currentPage))
      ensures sortConfig == old(sortConfig) && searchQuery == old(searchQuery)
      ensures selectedGenre == old(selectedGenre) && selectedStatus == old(selectedStatus)
      ensures currentPage == old(currentPage)
    {
      manualMovies := ms;
      request := BeginLoad();
    }

    /** The service answered: an error status records the network error; a
        success takes the answer's results, or nothing when it has none.
        Loading ends either way. */
    method ReceiveResponse(ok: bool, results: Option<seq<Movie>>)
      modifies this
      ensures manualMovies == old(manualMovies)
      ensures !ok ==> movies == old(movies) && error == Some(NetworkError)
      ensures ok ==> error == old(error)
                     && movies == (if results.Some? then results.value else [])
      ensures !isLoading
      ensures sortConfig == old(sortConfig) && searchQuery == old(searchQuery)
      ensures selectedGenre == old(selectedGenre) && selectedStatus == old(selectedStatus)
      ensures currentPage == old(currentPage)
    {
      if !ok {
        error := Some(NetworkError);
      } else if results.Some? {
        movies := results.value;
      } else {
        movies := [];
      }
      isLoading := false;
    }

    /** The request failed before an answer came: its message is recorded
        and loading ends. */
    method ReceiveFailure(message: string)
      modifies this
      ensures manualMovies == old(manualMovies)
      ensures error == Some(message) && !isLoading && movies == old(movies)
      ensures sortConfig == old(sortConfig) && searchQuery == old(searchQuery)
      ensures selectedGenre == old(selectedGenre) && selectedStatus == old(selectedStatus)
      ensures currentPage == old(currentPage)
    {
      error := Some(message);
      isLoading := false;
    }

    /** A click on one of the sort buttons. */
    method SortMovies(key: SortKey)
      modifies this
      ensures manualMovies == old(manualMovies)
      ensures sortConfig == NextSortConfig(old(sortConfig), key)
      ensures movies == old(movies) && searchQuery == old(searchQuery)
      ensures selectedGenre == old(selectedGenre) && selectedStatus == old(selectedStatus)
      ensures currentPage == old(currentPage)
      ensures isLoading == old(isLoading) && error == old(error)
    {
      sortConfig := NextSortConfig(sortConfig, key);
    }

    /** Typing in the search box. */
    method SetSearchQuery(query: string)
      modifies this
      ensures manualMovies == old(manualMovies)
      ensures searchQuery == query
      ensures movies == old(movies) && sortConfig == old(sortConfig)
      ensures selectedGenre == old(selectedGenre) && selectedStatus == old(selectedStatus)
      ensures currentPage == old(currentPage)
      ensures isLoading == old(isLoading) && error == old(error)
    {
      searchQuery := query;
    }

    /** Choosing in the genre drop-down. */
    method SetSelectedGenre(genre: GenreChoice)
      modifies this
      ensures manualMovies == old(manualMovies)
      ensures selectedGenre == genre
      ensures movies == old(movies) && sortConfig == old(sortConfig)
      ensures searchQuery == old(searchQuery) && selectedStatus == old(selectedStatus)
      ensures currentPage == old(currentPage)
      ensures isLoading == old(isLoading) && error == old(error)
    {
      selectedGenre := genre;
    }

    /** Choosing in the status drop-down. */
    method SetSelectedStatus(status: StatusChoice)
      modifies this
      ensures manualMovies == old(manualMovies)
      ensures selectedStatus == status
      ensures movies == old(movies) && sortConfig == old(sortConfig)
      ensures searchQuery == old(searchQuery) && selectedGenre == old(selectedGenre)
      ensures currentPage == old(currentPage)
      ensures isLoading == old(isLoading) && error == old(error)
    {
      selectedStatus := status;
    }

    /** The reset button of the empty list: the three filters go back to
        "no filter"; sort and page stay. */
    method ResetFilters()
      modifies this
      ensures manualMovies == old(manualMovies)
      ensures searchQuery == "" && selectedGenre == AllGenres && selectedStatus == AllStatuses
      ensures movies == old(movies) && sortConfig == old(sortConfig)
      ensures currentPage == old(currentPage)
      ensures isLoading == old(isLoading) && error == old(error)
    {
      searchQuery := "";
      selectedGenre := AllGenres;
      selectedStatus := AllStatuses;
    }

    /** The previous-page button. */
    method GoToPreviousPage()
      modifies this
      ensures manualMovies == old(manualMovies)
      ensures currentPage == PreviousPage(old(currentPage))
      ensures movies == old(movies) && sortConfig == old(sortConfig)
      ensures searchQuery == old(searchQuery)
      ensures selectedGenre == old(selectedGenre) && selectedStatus == old(selectedStatus)
      ensures isLoading == old(isLoading) && error == old(error)
    {
      currentPage := PreviousPage(currentPage);
    }

    /** The next-page button. */
    method GoToNextPage()
      modifies this
      ensures manualMovies == old(manualMovies)
      ensures currentPage == NextPage(old(currentPage))
      ensures movies == old(movies) && sortConfig == old(sortConfig)
      ensures searchQuery == old(searchQuery)
      ensures selectedGenre == old(selectedGenre) && selectedStatus == old(selectedStatus)
      ensures isLoading == old(isLoading) && error == old(error)
    {
      currentPage := NextPage(currentPage);
    }

    /** The memoised pipeline. The filter stages build new sequences and the
        sort runs in place on a fresh array, so the stored records are left
        as they were. */
    method FilteredAndSortedMovies(favorites: seq<int>, watched: seq<int>, watchLater: seq<int>)
      returns (view: seq<Movie>)
      ensures view == View(movies, searchQuery, selectedGenre, selectedStatus,
                           favorites, watched, watchLater, sortConfig, currentPage)
    {
      var result := Filtered(movies, searchQuery, selectedGenre, selectedStatus,
                             favorites, watched, watchLater);
      var a := new Movie[|result|](i requires 0 <= i < |result| => result[i]);
      assert a[..] == result;
      SortInPlace(a, sortConfig);
      view := Window(a[..], currentPage);
    }
  }
}
