/**
 * The three filter stages of the movie list: free text over the title,
 * genre, and personal status (favorites, watched, watch later). Each stage
 * narrows the previous stage's output and is skipped for its "no filter"
 * setting.
 */
module Filters {
  import opened Records

  /** The genre drop-down: 'all', or the option of one genre id. */
  datatype GenreChoice = AllGenres | GenreOption(id: nat)

  /** The status drop-down. */
  datatype StatusChoice = AllStatuses | FavoritesOnly | WatchedOnly | WatchLaterOnly

  function DigitChar(d: nat): (c: char)
    requires d < 10
    ensures '0' <= c <= '9'
  {
    ('0' as int + d) as char
  }

  /** The number a string of decimal digits spells, most significant digit
      first. */
  function DigitsValue(s: string): int
    decreases |s|
  {
    if s == [] then 0 else DigitsValue(s[..|s| - 1]) * 10 + (s[|s| - 1] as int - '0' as int)
  }

  /** The decimal text of n: the value the drop-down reports for the option
      of genre id n. Its digits spell n, and the only text with a
      leading zero is "0" itself. */
  function Decimal(n: nat): (r: string)
    ensures |r| >= 1
    ensures forall i :: 0 <= i < |r| ==> '0' <= r[i] <= '9'
    ensures DigitsValue(r) == n
    ensures r[0] == '0' ==> n == 0 && r == "0"
    decreases n
  {
    if n < 10 then [DigitChar(n)]
    else
      var d := Decimal(n / 10);
      var r := d + [DigitChar(n % 10)];
      assert r[..|r| - 1] == d;
      r
  }

  /** Distinct genre ids have distinct option values, so the text match of the
      genre stage picks out one id. */
  lemma DecimalInjective(a: nat, b: nat)
    ensures Decimal(a) == Decimal(b) <==> a == b
  {
  }

  /** The text predicate: the lower-cased title (falling back to the name)
      contains the lower-cased query. The empty query admits everything. */
  predicate AdmitsText(query: string, m: Movie) {
    query == "" || Contains(LowerCase(TitleText(m)), LowerCase(query))
  }

  /** The genre predicate: the genre list holds the chosen id, or the record's
      own genre string equals the drop-down's value. */
  predicate AdmitsGenre(choice: GenreChoice, m: Movie) {
    match choice
    case AllGenres => true
    case GenreOption(id) =>
      id in m.genreIds || (m.genre.Some? && m.genre.value != "" && m.genre.value == Decimal(id))
  }

  /** The status predicate over the id lists of the three collections. */
  predicate AdmitsStatus(choice: StatusChoice, favorites: seq<int>, watched: seq<int>,
                         watchLater: seq<int>, m: Movie) {
    match choice
    case AllStatuses => true
    case FavoritesOnly => m.id in favorites
    case WatchedOnly => m.id in watched
    case WatchLaterOnly => m.id in watchLater
  }

  function TextStage(s: seq<Movie>, query: string): (r: seq<Movie>)
    ensures query == "" ==> r == s
    ensures |r| <= |s|
    ensures forall x :: x in r <==> x in s && AdmitsText(query, x)
  {
    if query == "" then s
    else
      var p := m => Contains(LowerCase(TitleText(m)), LowerCase(query));
      KeepMembers(s, p);
      Keep(s, p)
  }

  function GenreStage(s: seq<Movie>, choice: GenreChoice): (r: seq<Movie>)
    ensures choice == AllGenres ==> r == s
    ensures |r| <= |s|
    ensures forall x :: x in r <==> x in s && AdmitsGenre(choice, x)
  {
    if choice == AllGenres then s
    else
      var p := m => AdmitsGenre(choice, m);
      KeepMembers(s, p);
      Keep(s, p)
  }

  function StatusStage(s: seq<Movie>, choice: StatusChoice, favorites: seq<int>,
                       watched: seq<int>, watchLater: seq<int>): (r: seq<Movie>)
    ensures choice == AllStatuses ==> r == s
    ensures |r| <= |s|
    ensures forall x :: x in r <==> x in s && AdmitsStatus(choice, favorites, watched, watchLater, x)
  {
    if choice == AllStatuses then s
    else
      var ids := match choice
        case FavoritesOnly => favorites
        case WatchedOnly => watched
        case _ => watchLater;
      var p := (m: Movie) => m.id in ids;
      KeepMembers(s, p);
      Keep(s, p)
  }

  /** The text stage is the order-preserving filter by its predicate: its
      output is a subsequence of its input and holds each admitted record as
      often as the input does, and no other record. */
  lemma TextStageIsExactFilter(s: seq<Movie>, query: string, x: Movie)
    ensures TextStage(s, query) == Keep(s, m => AdmitsText(query, m))
    ensures IsSubsequence(TextStage(s, query), s)
    ensures multiset(TextStage(s, query))[x] == if AdmitsText(query, x) then multiset(s)[x] else 0
  {
    var p := m => AdmitsText(query, m);
    if query == "" {
      KeepAll(s, p);
    } else {
      KeepSame(s, p, m => Contains(LowerCase(TitleText(m)), LowerCase(query)));
    }
    KeepIsSubsequence(s, p);
    KeepCount(s, p, x);
  }

  /** The genre stage is the order-preserving filter by its predicate. */
  lemma GenreStageIsExactFilter(s: seq<Movie>, choice: GenreChoice, x: Movie)
    ensures GenreStage(s, choice) == Keep(s, m => AdmitsGenre(choice, m))
    ensures IsSubsequence(GenreStage(s, choice), s)
    ensures multiset(GenreStage(s, choice))[x] == if AdmitsGenre(choice, x) then multiset(s)[x] else 0
  {
    var p := m => AdmitsGenre(choice, m);
    if choice == AllGenres {
      KeepAll(s, p);
    }
    KeepIsSubsequence(s, p);
    KeepCount(s, p, x);
  }

  /** The status stage is the order-preserving filter by its predicate. */
  lemma StatusStageIsExactFilter(s: seq<Movie>, choice: StatusChoice, favorites: seq<int>,
                                 watched: seq<int>, watchLater: seq<int>, x: Movie)
    ensures StatusStage(s, choice, favorites, watched, watchLater)
         == Keep(s, m => AdmitsStatus(choice, favorites, watched, watchLater, m))
    ensures IsSubsequence(StatusStage(s, choice, favorites, watched, watchLater), s)
    ensures multiset(StatusStage(s, choice, favorites, watched, watchLater))[x]
         == if AdmitsStatus(choice, favorites, watched, watchLater, x) then multiset(s)[x] else 0
  {
    var p := m => AdmitsStatus(choice, favorites, watched, watchLater, m);
    match choice {
      case AllStatuses => KeepAll(s, p);
      case FavoritesOnly => KeepSame(s, p, (m: Movie) => m.id in favorites);
      case WatchedOnly => KeepSame(s, p, (m: Movie) => m.id in watched);
      case WatchLaterOnly => KeepSame(s, p, (m: Movie) => m.id in watchLater);
    }
    KeepIsSubsequence(s, p);
    KeepCount(s, p, x);
  }

  /** Two predicates that agree on every record of s filter it alike. */
  lemma {:induction false} KeepSame(s: seq<Movie>, p: Movie -> bool, q: Movie -> bool)
    requires forall x :: x in s ==> p(x) == q(x)
    ensures Keep(s, p) == Keep(s, q)
  {
    if s != [] {
      assert p(s[0]) == q(s[0]);
      var h := if p(s[0]) then [s[0]] else [];
      assert Keep(s, p) == h + Keep(s[1..], p);
      assert Keep(s, q) == h + Keep(s[1..], q);
      KeepSame(s[1..], p, q);
    }
  }
}
