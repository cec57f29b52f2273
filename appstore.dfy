/**
 * The application shell: the theme and the three collections, loaded from
 * the browser's key-value storage on start and written back whenever they
 * change. The storage is a map from keys to stored values; a stored list of
 * records stands for its JSON text, which is not modelled.
 */
module AppStore {
  import opened Wrappers
  import opened Records
  import opened Filters
  import opened Collections
  import opened MovieListView

  const ThemeKey := "cinetech_theme"
  const FavoritesKey := "cinetech_favorites"
  const WatchedKey := "cinetech_watched"
  const WatchLaterKey := "cinetech_watchLater"

  /** A stored value: plain text, or the serialised form of a list of
      records. */
  datatype Stored = Text(text: string) | RecordList(records: seq<Movie>)

  type Storage = map<string, Stored>

  /** `getItem(key)`: null for a key never written. */
  function GetItem(storage: Storage, key: string): (r: Option<Stored>)
    ensures r.Some? <==> key in storage
    ensures r.Some? ==> r.value == storage[key]
  {
    if key in storage then Some(storage[key]) else None
  }

  /** The theme written on every change: 'dark' or 'light'. */
  function EncodeTheme(isDarkMode: bool): (r: string)
    ensures r == "dark" <==> isDarkMode
  {
    if isDarkMode then "dark" else "light"
  }

  /** The theme read on start: dark exactly when the stored text is 'dark';
      anything else, a missing key included, is light. */
  function DecodeTheme(saved: Option<Stored>): (r: bool)
    ensures r <==> saved == Some(Text("dark"))
  {
    match saved
    case Some(Text(t)) => t == "dark"
    case _ => false
  }

  /** The theme survives a save and a reload. */
  lemma ThemeRoundTrip(isDarkMode: bool)
    ensures DecodeTheme(Some(Text(EncodeTheme(isDarkMode)))) == isDarkMode
  {
  }

  /** A collection read on start: a missing key or an empty text gives the
      empty list, and a stored list gives that list. Any other text is an
      error. It stands for the two ways the code throws: text that is not JSON
      fails in `JSON.parse`, and JSON that is not an array fails when its ids
      are mapped. */
  function LoadCollection(saved: Option<Stored>): (r: Result<seq<Movie>, string>)
    ensures saved.None? || saved == Some(Text("")) ==> r == Ok([])
    ensures r.Err? <==> saved.Some? && saved.value.Text? && saved.value.text != ""
    ensures saved.Some? && saved.value.RecordList? ==> r == Ok(saved.value.records)
  {
    match saved
    case None => Ok([])
    case Some(Text(t)) => if t == "" then Ok([]) else Err("unparsable collection: " + t)
    case Some(RecordList(l)) => Ok(l)
  }

  /** What is written for a collection on every change. */
  function SaveCollection(c: seq<Movie>): (r: Stored)
    ensures LoadCollection(Some(r)) == Ok(c)
  {
    RecordList(c)
  }

  /** The application state kept in storage. */
  datatype Settings = Settings(isDarkMode: bool, favorites: seq<Movie>, watched: seq<Movie>, watchLater: seq<Movie>)

  /** The state read on start, or the first collection that fails to
      parse. */
  function LoadSettings(storage: Storage): (r: Result<Settings, string>)
    ensures r.Ok? <==> (LoadCollection(GetItem(storage, FavoritesKey)).Ok?
                        && LoadCollection(GetItem(storage, WatchedKey)).Ok?
                        && LoadCollection(GetItem(storage, WatchLaterKey)).Ok?)
    ensures r.Ok? ==> r.value.isDarkMode == DecodeTheme(GetItem(storage, ThemeKey))
    ensures r.Ok? ==> r.value.favorites == LoadCollection(GetItem(storage, FavoritesKey)).value
    ensures r.Ok? ==> r.value.watched == LoadCollection(GetItem(storage, WatchedKey)).value
    ensures r.Ok? ==> r.value.watchLater == LoadCollection(GetItem(storage, WatchLaterKey)).value
    ensures storage == map[] ==> r == Ok(Settings(false, [], [], []))
  {
    var favorites := LoadCollection(GetItem(storage, FavoritesKey));
    var watched := LoadCollection(GetItem(storage, WatchedKey));
    var watchLater := LoadCollection(GetItem(storage, WatchLaterKey));
    if favorites.Err? then Err(favorites.error)
    else if watched.Err? then Err(watched.error)
    else if watchLater.Err? then Err(watchLater.error)
    else Ok(Settings(DecodeTheme(GetItem(storage, ThemeKey)), favorites.value, watched.value, watchLater.value))
  }

  /** The four writes of the persistence effects. */
  function SaveSettings(storage: Storage, s: Settings): (r: Storage)
    ensures forall k :: k in storage ==> k in r
    ensures forall k :: k in storage && k !in {ThemeKey, FavoritesKey, WatchedKey, WatchLaterKey} ==> r[k] == storage[k]
  {
    storage[FavoritesKey := SaveCollection(s.favorites)]
           [WatchedKey := SaveCollection(s.watched)]
           [WatchLaterKey := SaveCollection(s.watchLater)]
           [ThemeKey := Text(EncodeTheme(s.isDarkMode))]
  }

  /** Whatever the storage held before, saving the state and loading it back
      gives the same state. */
  lemma SettingsRoundTrip(storage: Storage, s: Settings)
    ensures LoadSettings(SaveSettings(storage, s)) == Ok(s)
  {
    var saved := SaveSettings(storage, s);
    assert GetItem(saved, FavoritesKey) == Some(RecordList(s.favorites));
    assert GetItem(saved, WatchedKey) == Some(RecordList(s.watched));
    assert GetItem(saved, WatchLaterKey) == Some(RecordList(s.watchLater));
    assert GetItem(saved, ThemeKey) == Some(Text(EncodeTheme(s.isDarkMode)));
  }

  /** The status filter of the list, fed with a collection's ids, keeps a
      record exactly when the collection has an entry with its id, and the
      card's marker says the same. */
  lemma StatusFilterFollowsCollection(s: seq<Movie>, favorites: seq<Movie>, watched: seq<Movie>,
                                      watchLater: seq<Movie>, x: Movie)
    ensures x in StatusStage(s, FavoritesOnly, Ids(favorites), Ids(watched), Ids(watchLater))
        <==> x in s && HasId(favorites, x.id)
    ensures x in StatusStage(s, WatchedOnly, Ids(favorites), Ids(watched), Ids(watchLater))
        <==> x in s && HasId(watched, x.id)
    ensures x in StatusStage(s, WatchLaterOnly, Ids(favorites), Ids(watched), Ids(watchLater))
        <==> x in s && HasId(watchLater, x.id)
    ensures Marks(x, Ids(favorites), Ids(watched), Ids(watchLater))
         == CardMarks(HasId(favorites, x.id), HasId(watched, x.id), HasId(watchLater, x.id))
  {
    IdsMembership(favorites, x.id);
    IdsMembership(watched, x.id);
    IdsMembership(watchLater, x.id);
  }

  /** The application's state and the storage it writes to. */
  class App {
    var isDarkMode: bool
    var favorites: seq<Movie>
    var watched: seq<Movie>
    var watchLater: seq<Movie>
    var storage: Storage

    /** The storage holds the current state. */
    ghost predicate Synced()
      reads this
    {
      LoadSettings(storage) == Ok(Settings(isDarkMode, favorites, watched, watchLater))
    }

    constructor(s: Settings, storage: Storage)
      ensures isDarkMode == s.isDarkMode && favorites == s.favorites
      ensures watched == s.watched && watchLater == s.watchLater
      ensures this.storage == storage
    {
      isDarkMode := s.isDarkMode;
      favorites := s.favorites;
      watched := s.watched;
      watchLater := s.watchLater;
      this.storage := storage;
    }

    /** Start-up: read the state, then run the persistence effects once. A
        collection that fails to parse stops the start. */
    static method Open(storage: Storage) returns (r: Result<App, string>)
      ensures r.Ok? <==> LoadSettings(storage).Ok?
      ensures r.Err? ==> r == Err(LoadSettings(storage).error)
      ensures r.Ok? ==> fresh(r.value)
      ensures r.Ok? ==> r.value.isDarkMode == LoadSettings(storage).value.isDarkMode
                        && r.value.favorites == LoadSettings(storage).value.favorites
                        && r.value.watched == LoadSettings(storage).value.watched
                        && r.value.watchLater == LoadSettings(storage).value.watchLater
      ensures r.Ok? ==> r.value.storage == SaveSettings(storage, LoadSettings(storage).value)
      ensures r.Ok? ==> r.value.Synced()
    {
      var loaded := LoadSettings(storage);
      if loaded.Err? {
        return Err(loaded.error);
      }
      var s := loaded.value;
      SettingsRoundTrip(storage, s);
      var app := new App(s, SaveSettings(storage, s));
      return Ok(app);
    }

    /** The favorite button of a card, with the effect that saves the new
        list. */
    method ToggleFavorite(m: Movie)
      modifies this
      ensures favorites == Toggle(old(favorites), m)
      ensures watched == old(watched) && watchLater == old(watchLater) && isDarkMode == old(isDarkMode)
      ensures storage == old(storage)[FavoritesKey := SaveCollection(favorites)]
      ensures old(Synced()) ==> Synced()
    {
      favorites := Toggle(favorites, m);
      storage := storage[FavoritesKey := SaveCollection(favorites)];
      assert GetItem(storage, FavoritesKey) == Some(RecordList(favorites));
      assert GetItem(storage, WatchedKey) == GetItem(old(storage), WatchedKey);
      assert GetItem(storage, WatchLaterKey) == GetItem(old(storage), WatchLaterKey);
      assert GetItem(storage, ThemeKey) == GetItem(old(storage), ThemeKey);
    }

    /** The watched button of a card, with the effect that saves the new
        list. */
    method ToggleWatched(m: Movie)
      modifies this
      ensures watched == Toggle(old(watched), m)
      ensures favorites == old(favorites) && watchLater == old(watchLater) && isDarkMode == old(isDarkMode)
      ensures storage == old(storage)[WatchedKey := SaveCollection(watched)]
      ensures old(Synced()) ==> Synced()
    {
      watched := Toggle(watched, m);
      storage := storage[WatchedKey := SaveCollection(watched)];
      assert GetItem(storage, WatchedKey) == Some(RecordList(watched));
      assert GetItem(storage, FavoritesKey) == GetItem(old(storage), FavoritesKey);
      assert GetItem(storage, WatchLaterKey) == GetItem(old(storage), WatchLaterKey);
      assert GetItem(storage, ThemeKey) == GetItem(old(storage), ThemeKey);
    }

    /** The watch-later button of a card, with the effect that saves the new
        list. */
    method ToggleWatchLater(m: Movie)
      modifies this
      ensures watchLater == Toggle(old(watchLater), m)
      ensures favorites == old(favorites) && watched == old(watched) && isDarkMode == old(isDarkMode)
      ensures storage == old(storage)[WatchLaterKey := SaveCollection(watchLater)]
      ensures old(Synced()) ==> Synced()
    {
      watchLater := Toggle(watchLater, m);
      storage := storage[WatchLaterKey := SaveCollection(watchLater)];
      assert GetItem(storage, WatchLaterKey) == Some(RecordList(watchLater));
      assert GetItem(storage, FavoritesKey) == GetItem(old(storage), FavoritesKey);
      assert GetItem(storage, WatchedKey) == GetItem(old(storage), WatchedKey);
      assert GetItem(storage, ThemeKey) == GetItem(old(storage), ThemeKey);
    }

    /** The theme button, with the effect that saves the new theme. */
    method ToggleTheme()
      modifies this
      ensures isDarkMode == !old(isDarkMode)
      ensures favorites == old(favorites) && watched == old(watched) && watchLater == old(watchLater)
      ensures storage == old(storage)[ThemeKey := Text(EncodeTheme(isDarkMode))]
      ensures old(Synced()) ==> Synced()
    {
      isDarkMode := !isDarkMode;
      storage := storage[ThemeKey := Text(EncodeTheme(isDarkMode))];
      assert GetItem(storage, ThemeKey) == Some(Text(EncodeTheme(isDarkMode)));
      assert GetItem(storage, FavoritesKey) == GetItem(old(storage), FavoritesKey);
      assert GetItem(storage, WatchedKey) == GetItem(old(storage), WatchedKey);
      assert GetItem(storage, WatchLaterKey) == GetItem(old(storage), WatchLaterKey);
    }

    /** The three id lists handed to every movie list. */
    method IdLists() returns (favoriteIds: seq<int>, watchedIds: seq<int>, watchLaterIds: seq<int>)
      ensures forall id :: id in favoriteIds <==> HasId(favorites, id)
      ensures forall id :: id in watchedIds <==> HasId(watched, id)
      ensures forall id :: id in watchLaterIds <==> HasId(watchLater, id)
      ensures |favoriteIds| == |favorites| && |watchedIds| == |watched| && |watchLaterIds| == |watchLater|
      ensures forall i :: 0 <= i < |favorites| ==> favoriteIds[i] == favorites[i].id
      ensures forall i :: 0 <= i < |watched| ==> watchedIds[i] == watched[i].id
      ensures forall i :: 0 <= i < |watchLater| ==> watchLaterIds[i] == watchLater[i].id
      ensures favoriteIds == Ids(favorites) && watchedIds == Ids(watched) && watchLaterIds == Ids(watchLater)
    {
      favoriteIds := Ids(favorites);
      watchedIds := Ids(watched);
      watchLaterIds := Ids(watchLater);
      forall id ensures id in favoriteIds <==> HasId(favorites, id) {
        IdsMembership(favorites, id);
      }
      forall id ensures id in watchedIds <==> HasId(watched, id) {
        IdsMembership(watched, id);
      }
      forall id ensures id in watchLaterIds <==> HasId(watchLater, id) {
        IdsMembership(watchLater, id);
      }
    }
  }
}
