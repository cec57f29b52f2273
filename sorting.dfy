/**
 * The sort stage of the movie list: the comparator handed to `Array.sort`,
 * and the stable sort that `Array.sort` performs with it. The sort is
 * specified by a stable insertion sort on sequences; the lemmas prove that
 * its result is a sorted permutation that keeps ties in input order and that
 * it is the only arrangement with those three properties, so it is the
 * result any stable sort produces.
 */
module Sorting {
  import opened Wrappers
  import opened Records

  datatype SortKey = Popularity | Rating | Date | Title
  datatype Direction = Asc | Desc
  datatype SortConfig = SortConfig(key: SortKey, direction: Direction)

  /** `a.localeCompare(b)`, taken as the lexicographic order of the character
      codes: negative, zero or positive as a sorts before, with or after b. */
  function LocaleCompare(a: string, b: string): (r: int)
    ensures -1 <= r <= 1
  {
    if a == [] && b == [] then 0
    else if a == [] then -1
    else if b == [] then 1
    else if a[0] < b[0] then -1
    else if a[0] > b[0] then 1
    else LocaleCompare(a[1..], b[1..])
  }

  lemma {:induction false} LocaleCompareAntisymmetric(a: string, b: string)
    ensures LocaleCompare(a, b) == -LocaleCompare(b, a)
  {
    if a != [] && b != [] && a[0] == b[0] {
      LocaleCompareAntisymmetric(a[1..], b[1..]);
    }
  }

  /** Only equal strings compare as equal. */
  lemma {:induction false} LocaleCompareZeroIffEqual(a: string, b: string)
    ensures LocaleCompare(a, b) == 0 <==> a == b
  {
    if a != [] && b != [] && a[0] == b[0] {
      LocaleCompareZeroIffEqual(a[1..], b[1..]);
      assert a == [a[0]] + a[1..] && b == [b[0]] + b[1..];
    }
  }

  lemma {:induction false} LocaleCompareTransitive(a: string, b: string, c: string)
    requires LocaleCompare(a, b) <= 0 && LocaleCompare(b, c) <= 0
    ensures LocaleCompare(a, c) <= 0
  {
    if a != [] && b != [] && c != [] && a[0] == b[0] == c[0] {
      LocaleCompareTransitive(a[1..], b[1..], c[1..]);
    }
  }

  /** `x || 0` for a score. */
  function ScoreOr0(o: Option<real>): (r: real)
  {
    if o.Some? then o.value else 0.0
  }

  /** `new Date(release_date || first_air_date || 0).getTime()`. */
  function DateKey(m: Movie): (r: int)
  {
    if m.releaseDate.Some? then m.releaseDate.value
    else if m.firstAirDate.Some? then m.firstAirDate.value
    else 0
  }

  /** The fallbacks of the numeric keys: a missing score counts as 0, and a
      missing release date falls back to the first air date, then to 0. */
  lemma SortKeyFallbacks(o: Option<real>, m: Movie)
    ensures o.Some? ==> ScoreOr0(o) == o.value
    ensures o.None? ==> ScoreOr0(o) == 0.0
    ensures m.releaseDate.Some? ==> DateKey(m) == m.releaseDate.value
    ensures m.releaseDate.None? && m.firstAirDate.Some? ==> DateKey(m) == m.firstAirDate.value
    ensures m.releaseDate.None? && m.firstAirDate.None? ==> DateKey(m) == 0
  {
  }

  function NumericKey(key: SortKey, m: Movie): real
    requires key != Title
  {
    match key
    case Popularity => ScoreOr0(m.popularity)
    case Rating => ScoreOr0(m.voteAverage)
    case Date => DateKey(m) as real
  }

  function Sign(x: real): int {
    if x < 0.0 then -1 else if x > 0.0 then 1 else 0
  }

  /** The sign of the comparator's result for a and b: negative when a goes
      first. Titles compare lower-cased; numbers by difference. */
  function Compare(cfg: SortConfig, a: Movie, b: Movie): (r: int)
    ensures -1 <= r <= 1
  {
    if cfg.key == Title then
      var x, y := LowerCase(TitleText(a)), LowerCase(TitleText(b));
      if cfg.direction == Asc then LocaleCompare(x, y) else LocaleCompare(y, x)
    else
      var x, y := NumericKey(cfg.key, a), NumericKey(cfg.key, b);
      if cfg.direction == Asc then Sign(x - y) else Sign(y - x)
  }

  /** The comparator puts a first exactly when the chosen key of a comes
      before b's in the chosen direction, and ties exactly the records with
      equal numeric keys. */
  lemma CompareFollowsKey(cfg: SortConfig, a: Movie, b: Movie)
    ensures cfg.key != Title ==> (Compare(cfg, a, b) == 0 <==> NumericKey(cfg.key, a) == NumericKey(cfg.key, b))
    ensures cfg.key != Title && cfg.direction == Asc
        ==> (Compare(cfg, a, b) < 0 <==> NumericKey(cfg.key, a) < NumericKey(cfg.key, b))
    ensures cfg.key != Title && cfg.direction == Desc
        ==> (Compare(cfg, a, b) < 0 <==> NumericKey(cfg.key, a) > NumericKey(cfg.key, b))
    ensures cfg.key == Title && cfg.direction == Asc
        ==> (Compare(cfg, a, b) < 0 <==> LocaleCompare(LowerCase(TitleText(a)), LowerCase(TitleText(b))) < 0)
    ensures cfg.key == Title && cfg.direction == Desc
        ==> (Compare(cfg, a, b) < 0 <==> LocaleCompare(LowerCase(TitleText(b)), LowerCase(TitleText(a))) < 0)
  {
  }

  /** The comparator is consistent, as `Array.sort` demands: swapping the
      arguments negates it, and "goes no later than" is transitive. */
  lemma CompareIsConsistent(cfg: SortConfig, a: Movie, b: Movie, c: Movie)
    ensures Compare(cfg, a, b) == -Compare(cfg, b, a)
    ensures Compare(cfg, a, b) <= 0 && Compare(cfg, b, c) <= 0 ==> Compare(cfg, a, c) <= 0
  {
    if cfg.key == Title {
      var x, y, z := LowerCase(TitleText(a)), LowerCase(TitleText(b)), LowerCase(TitleText(c));
      LocaleCompareAntisymmetric(x, y);
      if cfg.direction == Asc {
        if LocaleCompare(x, y) <= 0 && LocaleCompare(y, z) <= 0 {
          LocaleCompareTransitive(x, y, z);
        }
      } else {
        if LocaleCompare(y, x) <= 0 && LocaleCompare(z, y) <= 0 {
          LocaleCompareTransitive(z, y, x);
        }
      }
    }
  }

  /** A missing score or date sorts exactly as a zero one would. */
  lemma MissingValuesCountAsZero(cfg: SortConfig, a: Movie, b: Movie)
    ensures cfg.key == Popularity && a.popularity.None?
        ==> Compare(cfg, a, b) == Compare(cfg, a.(popularity := Some(0.0)), b)
    ensures cfg.key == Rating && a.voteAverage.None?
        ==> Compare(cfg, a, b) == Compare(cfg, a.(voteAverage := Some(0.0)), b)
    ensures cfg.key == Date && a.releaseDate.None? && a.firstAirDate.None?
        ==> Compare(cfg, a, b) == Compare(cfg, a.(releaseDate := Some(0)), b)
  {
  }

  /** Every pair of records appears in an order the comparator allows. */
  ghost predicate SortedBy(cfg: SortConfig, s: seq<Movie>) {
    forall i, j :: 0 <= i < j < |s| ==> Compare(cfg, s[i], s[j]) <= 0
  }

  /** A sorted list is ordered by the chosen key in the chosen direction:
      numbers rise (or fall) and lower-cased titles follow the string order
      (or its reverse). */
  lemma SortedFollowsKey(cfg: SortConfig, s: seq<Movie>, i: nat, j: nat)
    requires SortedBy(cfg, s) && i < j < |s|
    ensures cfg.key != Title && cfg.direction == Asc ==> NumericKey(cfg.key, s[i]) <= NumericKey(cfg.key, s[j])
    ensures cfg.key != Title && cfg.direction == Desc ==> NumericKey(cfg.key, s[i]) >= NumericKey(cfg.key, s[j])
    ensures cfg.key == Title && cfg.direction == Asc
        ==> LocaleCompare(LowerCase(TitleText(s[i])), LowerCase(TitleText(s[j]))) <= 0
    ensures cfg.key == Title && cfg.direction == Desc
        ==> LocaleCompare(LowerCase(TitleText(s[j])), LowerCase(TitleText(s[i]))) <= 0
  {
    assert Compare(cfg, s[i], s[j]) <= 0;
    CompareFollowsKey(cfg, s[i], s[j]);
  }

  /** The records that compare equal to k. */
  function TiesWith(cfg: SortConfig, k: Movie): Movie -> bool {
    m => Compare(cfg, m, k) == 0
  }

  /** Inserts x into a sorted s behind every record that does not go after it. */
  function Insert(cfg: SortConfig, s: seq<Movie>, x: Movie): (r: seq<Movie>)
    ensures |r| == |s| + 1
    decreases |s|
  {
    if s == [] || Compare(cfg, s[|s| - 1], x) <= 0 then s + [x]
    else Insert(cfg, s[..|s| - 1], x) + [s[|s| - 1]]
  }

  /** Stable insertion sort: each record in turn is inserted into the sorted
      prefix before it. */
  function StableSort(cfg: SortConfig, s: seq<Movie>): (r: seq<Movie>)
    ensures |r| == |s|
    decreases |s|
  {
    if s == [] then [] else Insert(cfg, StableSort(cfg, s[..|s| - 1]), s[|s| - 1])
  }

  lemma {:induction false} InsertPermutes(cfg: SortConfig, s: seq<Movie>, x: Movie)
    ensures multiset(Insert(cfg, s, x)) == multiset(s) + multiset{x}
    decreases |s|
  {
    if s != [] && Compare(cfg, s[|s| - 1], x) > 0 {
      var init := s[..|s| - 1];
      InsertPermutes(cfg, init, x);
      assert s == init + [s[|s| - 1]];
    }
  }

  /** When x goes after the last record of a sorted s, no record of the
      front of s with x added goes after that last record. */
  lemma NoneAfterLast(cfg: SortConfig, s: seq<Movie>, x: Movie, r: seq<Movie>)
    requires |s| > 0 && SortedBy(cfg, s) && Compare(cfg, s[|s| - 1], x) > 0
    requires multiset(r) == multiset(s[..|s| - 1]) + multiset{x}
    ensures forall i :: 0 <= i < |r| ==> Compare(cfg, r[i], s[|s| - 1]) <= 0
  {
    var last := s[|s| - 1];
    var init := s[..|s| - 1];
    CompareIsConsistent(cfg, last, x, last);
    forall i | 0 <= i < |r| ensures Compare(cfg, r[i], last) <= 0 {
      assert r[i] in multiset(r);
      if r[i] != x {
        assert r[i] in init;
        var k :| 0 <= k < |init| && init[k] == r[i];
        assert Compare(cfg, s[k], last) <= 0;
      }
    }
  }

  lemma {:induction false} InsertKeepsSorted(cfg: SortConfig, s: seq<Movie>, x: Movie)
    requires SortedBy(cfg, s)
    ensures SortedBy(cfg, Insert(cfg, s, x))
    decreases |s|
  {
    if s == [] {
      SortedAppend(cfg, s, x);
    } else if Compare(cfg, s[|s| - 1], x) <= 0 {
      forall i | 0 <= i < |s| ensures Compare(cfg, s[i], x) <= 0 {
        if i < |s| - 1 {
          CompareIsConsistent(cfg, s[i], s[|s| - 1], x);
        }
      }
      SortedAppend(cfg, s, x);
    } else {
      var init := s[..|s| - 1];
      SortedPrefix(cfg, s, |s| - 1);
      InsertKeepsSorted(cfg, init, x);
      InsertPermutes(cfg, init, x);
      NoneAfterLast(cfg, s, x, Insert(cfg, init, x));
      SortedAppend(cfg, Insert(cfg, init, x), s[|s| - 1]);
    }
  }

  /** Appending a record that no record of a sorted t goes after keeps it
      sorted. */
  lemma SortedAppend(cfg: SortConfig, t: seq<Movie>, y: Movie)
    requires SortedBy(cfg, t)
    requires forall i :: 0 <= i < |t| ==> Compare(cfg, t[i], y) <= 0
    ensures SortedBy(cfg, t + [y])
  {
    var r := t + [y];
    forall i, j | 0 <= i < j < |r| ensures Compare(cfg, r[i], r[j]) <= 0 {
      assert r[i] == t[i];
      if j < |t| {
        assert r[j] == t[j];
      }
    }
  }


  /** A record that goes strictly after x cannot tie with the same record as x. */
  lemma GoesAfterSplitsTies(cfg: SortConfig, y: Movie, x: Movie, k: Movie)
    requires Compare(cfg, y, x) > 0
    ensures !(TiesWith(cfg, k)(y) && TiesWith(cfg, k)(x))
  {
    CompareIsConsistent(cfg, k, x, x);
    CompareIsConsistent(cfg, y, k, x);
  }

  /** Inserting x adds x behind the records that tie with it, and leaves every
      other tie class as it was. */
  lemma {:induction false} InsertKeepsTies(cfg: SortConfig, s: seq<Movie>, x: Movie, k: Movie)
    ensures Keep(Insert(cfg, s, x), TiesWith(cfg, k)) == Keep(s, TiesWith(cfg, k)) + Keep([x], TiesWith(cfg, k))
    decreases |s|
  {
    var t := TiesWith(cfg, k);
    if s == [] || Compare(cfg, s[|s| - 1], x) <= 0 {
      KeepConcat(s, [x], t);
    } else {
      var init, last := s[..|s| - 1], s[|s| - 1];
      assert s == init + [last];
      InsertKeepsTies(cfg, init, x, k);
      KeepConcat(Insert(cfg, init, x), [last], t);
      KeepConcat(init, [last], t);
      GoesAfterSplitsTies(cfg, last, x, k);
      assert Keep([x], t) + Keep([last], t) == Keep([last], t) + Keep([x], t);
    }
  }

  lemma {:induction false} StableSortPermutes(cfg: SortConfig, s: seq<Movie>)
    ensures multiset(StableSort(cfg, s)) == multiset(s)
    decreases |s|
  {
    if s != [] {
      var init, x := s[..|s| - 1], s[|s| - 1];
      assert s == init + [x];
      StableSortPermutes(cfg, init);
      InsertPermutes(cfg, StableSort(cfg, init), x);
    }
  }

  lemma {:induction false} StableSortSorts(cfg: SortConfig, s: seq<Movie>)
    ensures SortedBy(cfg, StableSort(cfg, s))
    decreases |s|
  {
    if s != [] {
      StableSortSorts(cfg, s[..|s| - 1]);
      InsertKeepsSorted(cfg, StableSort(cfg, s[..|s| - 1]), s[|s| - 1]);
    }
  }

  /** Stability: the records of each tie class come out in their input order. */
  lemma {:induction false} StableSortIsStable(cfg: SortConfig, s: seq<Movie>)
    ensures forall k :: Keep(StableSort(cfg, s), TiesWith(cfg, k)) == Keep(s, TiesWith(cfg, k))
    decreases |s|
  {
    if s != [] {
      var init, x := s[..|s| - 1], s[|s| - 1];
      assert s == init + [x];
      StableSortIsStable(cfg, init);
      forall k ensures Keep(StableSort(cfg, s), TiesWith(cfg, k)) == Keep(s, TiesWith(cfg, k)) {
        InsertKeepsTies(cfg, StableSort(cfg, init), x, k);
        KeepConcat(init, [x], TiesWith(cfg, k));
      }
    }
  }

  /** Any block of consecutive records of a sorted sequence is sorted. */
  lemma SortedBlock(cfg: SortConfig, s: seq<Movie>, r: seq<Movie>, start: nat)
    requires SortedBy(cfg, s)
    requires forall i :: 0 <= i < |r| ==> start + i < |s| && r[i] == s[start + i]
    ensures SortedBy(cfg, r)
  {
    forall i, j | 0 <= i < j < |r| ensures Compare(cfg, r[i], r[j]) <= 0 {
      var a, b := r[i], r[j];
      assert start + i < |s| && start + j < |s|;
      assert a == s[start + i] && b == s[start + j];
    }
  }

  lemma SortedPrefix(cfg: SortConfig, s: seq<Movie>, n: nat)
    requires SortedBy(cfg, s) && n <= |s|
    ensures SortedBy(cfg, s[..n])
  {
    forall i, j | 0 <= i < j < n ensures Compare(cfg, s[..n][i], s[..n][j]) <= 0 {
      assert s[..n][i] == s[i] && s[..n][j] == s[j];
    }
  }

  /** The last record of a sorted sequence goes no earlier than any of its records. */
  lemma LastIsGreatest(cfg: SortConfig, s: seq<Movie>, y: Movie)
    requires SortedBy(cfg, s) && y in s
    ensures Compare(cfg, y, s[|s| - 1]) <= 0
  {
    var i :| 0 <= i < |s| && s[i] == y;
    if i == |s| - 1 {
      CompareIsConsistent(cfg, y, y, y);
    }
  }

  /** Equal filtered sequences stay equal when one last record is removed
      from both inputs. */
  lemma KeepDropLast(t: seq<Movie>, u: seq<Movie>, a: Movie, p: Movie -> bool)
    requires Keep(t + [a], p) == Keep(u + [a], p)
    ensures Keep(t, p) == Keep(u, p)
  {
    KeepConcat(t, [a], p);
    KeepConcat(u, [a], p);
    var x, y, z := Keep(t, p), Keep(u, p), Keep([a], p);
    assert x + z == y + z;
    assert x == (x + z)[..|x|];
    assert y == (y + z)[..|y|];
  }

  /** Two sorted sequences with the same records end with records that tie. */
  lemma LastRecordsTie(cfg: SortConfig, t: seq<Movie>, u: seq<Movie>)
    requires |t| == |u| > 0 && multiset(t) == multiset(u)
    requires SortedBy(cfg, t) && SortedBy(cfg, u)
    ensures Compare(cfg, u[|u| - 1], t[|t| - 1]) == 0
  {
    var a, b := t[|t| - 1], u[|u| - 1];
    assert b in multiset(u);
    assert a in multiset(t);
    LastIsGreatest(cfg, t, b);
    LastIsGreatest(cfg, u, a);
    CompareIsConsistent(cfg, a, b, a);
  }

  /** Two sequences whose last records tie, and whose records tying with the
      first one's last record come in the same order, end with the same record. */
  lemma SameLast(cfg: SortConfig, t: seq<Movie>, u: seq<Movie>)
    requires |t| > 0 && |u| > 0
    requires Compare(cfg, u[|u| - 1], t[|t| - 1]) == 0
    requires Keep(t, TiesWith(cfg, t[|t| - 1])) == Keep(u, TiesWith(cfg, t[|t| - 1]))
    ensures t[|t| - 1] == u[|u| - 1]
  {
    var a, b := t[|t| - 1], u[|u| - 1];
    var t', u' := t[..|t| - 1], u[..|u| - 1];
    CompareIsConsistent(cfg, a, a, a);
    var ta := TiesWith(cfg, a);
    assert ta(a) && ta(b);
    SplitLast(t);
    SplitLast(u);
    KeepLast(t', a, ta);
    KeepLast(u', b, ta);
    LastOfEqual(Keep(t', ta), Keep(u', ta), a, b);
  }

  lemma SplitLast(s: seq<Movie>)
    requires |s| > 0
    ensures s == s[..|s| - 1] + [s[|s| - 1]]
  {
  }

  lemma LastOfEqual(x: seq<Movie>, y: seq<Movie>, a: Movie, b: Movie)
    requires x + [a] == y + [b]
    ensures a == b
  {
    assert (x + [a])[|x + [a]| - 1] == a;
    assert (y + [b])[|y + [b]| - 1] == b;
  }

  /** A record that passes the filter ends the filtered sequence. */
  lemma KeepLast(s: seq<Movie>, x: Movie, p: Movie -> bool)
    requires p(x)
    ensures Keep(s + [x], p) == Keep(s, p) + [x]
  {
    KeepConcat(s, [x], p);
  }

  /** Records that tie with each other come in the same order in t and u. */
  ghost predicate SameTies(cfg: SortConfig, t: seq<Movie>, u: seq<Movie>) {
    forall k :: Keep(t, TiesWith(cfg, k)) == Keep(u, TiesWith(cfg, k))
  }

  lemma DropLastKeepsTies(cfg: SortConfig, t: seq<Movie>, u: seq<Movie>, a: Movie)
    requires SameTies(cfg, t + [a], u + [a])
    ensures SameTies(cfg, t, u)
  {
    forall k ensures Keep(t, TiesWith(cfg, k)) == Keep(u, TiesWith(cfg, k)) {
      KeepDropLast(t, u, a, TiesWith(cfg, k));
    }
  }

  lemma DropLastKeepsPermutation(t: seq<Movie>, u: seq<Movie>, a: Movie)
    requires multiset(t + [a]) == multiset(u + [a])
    ensures multiset(t) == multiset(u)
  {
    assert multiset(t + [a]) == multiset(t) + multiset{a};
    assert multiset(u + [a]) == multiset(u) + multiset{a};
    forall y ensures multiset(t)[y] == multiset(u)[y] {
      assert multiset(t + [a])[y] == multiset(u + [a])[y];
    }
  }

  /** Two sorted stable arrangements of the same records end with the same
      record, and what precedes it is again two such arrangements. */
  lemma AgreeOnLast(cfg: SortConfig, t: seq<Movie>, u: seq<Movie>)
    requires |t| == |u| > 0 && multiset(t) == multiset(u)
    requires SortedBy(cfg, t) && SortedBy(cfg, u)
    requires SameTies(cfg, t, u)
    ensures t[|t| - 1] == u[|u| - 1]
    ensures multiset(t[..|t| - 1]) == multiset(u[..|u| - 1])
    ensures SortedBy(cfg, t[..|t| - 1]) && SortedBy(cfg, u[..|u| - 1])
    ensures SameTies(cfg, t[..|t| - 1], u[..|u| - 1])
  {
    var n := |t|;
    var a := t[n - 1];
    LastRecordsTie(cfg, t, u);
    assert Keep(t, TiesWith(cfg, a)) == Keep(u, TiesWith(cfg, a));
    SameLast(cfg, t, u);
    var t', u' := t[..n - 1], u[..n - 1];
    SplitLast(t);
    SplitLast(u);
    DropLastKeepsTies(cfg, t', u', a);
    DropLastKeepsPermutation(t', u', a);
    SortedPrefix(cfg, t, n - 1);
    SortedPrefix(cfg, u, n - 1);
  }

  /** Two sorted permutations of each other with the same tie classes in the
      same order are equal. */
  lemma {:induction false} SortedStableArrangementsAgree(cfg: SortConfig, t: seq<Movie>, u: seq<Movie>)
    requires multiset(t) == multiset(u)
    requires SortedBy(cfg, t) && SortedBy(cfg, u)
    requires SameTies(cfg, t, u)
    ensures t == u
    decreases |t|
  {
    assert |t| == |multiset(t)| == |multiset(u)| == |u|;
    if t != [] {
      AgreeOnLast(cfg, t, u);
      SortedStableArrangementsAgree(cfg, t[..|t| - 1], u[..|u| - 1]);
      SplitLast(t);
      SplitLast(u);
    }
  }

  /** Whatever stable sort the JavaScript engine runs, its result is a sorted,
      stable permutation of the input, and therefore StableSort's. */
  lemma StableSortIsUnique(cfg: SortConfig, s: seq<Movie>, t: seq<Movie>)
    requires multiset(t) == multiset(s)
    requires SortedBy(cfg, t)
    requires forall k :: Keep(t, TiesWith(cfg, k)) == Keep(s, TiesWith(cfg, k))
    ensures t == StableSort(cfg, s)
  {
    StableSortPermutes(cfg, s);
    StableSortSorts(cfg, s);
    StableSortIsStable(cfg, s);
    assert SameTies(cfg, t, StableSort(cfg, s));
    SortedStableArrangementsAgree(cfg, t, StableSort(cfg, s));
  }
  /** When every record ties with every other, sorting changes nothing; for
      instance when no record has the field sorted by. */
  lemma AllTiesSortAsIs(cfg: SortConfig, s: seq<Movie>)
    requires forall i, j :: 0 <= i < |s| && 0 <= j < |s| ==> Compare(cfg, s[i], s[j]) == 0
    ensures StableSort(cfg, s) == s
  {
    if s != [] {
      var t := TiesWith(cfg, s[0]);
      StableSortIsStable(cfg, s);
      StableSortPermutes(cfg, s);
      KeepAll(s, t);
      forall x | x in StableSort(cfg, s) ensures t(x) {
        assert x in multiset(s);
      }
      KeepAll(StableSort(cfg, s), t);
    }
  }

  /** Insert puts x right behind the longest prefix whose last record does
      not go after x. */
  lemma {:induction false} InsertSplits(cfg: SortConfig, s: seq<Movie>, x: Movie, j: nat)
    requires j <= |s|
    requires j == 0 || Compare(cfg, s[j - 1], x) <= 0
    requires forall k :: j <= k < |s| ==> Compare(cfg, s[k], x) > 0
    ensures Insert(cfg, s, x) == s[..j] + [x] + s[j..]
    decreases |s|
  {
    if j == |s| {
      assert s[..j] == s;
      assert s[j..] == [];
    } else {
      var init, last := s[..|s| - 1], s[|s| - 1];
      assert Compare(cfg, last, x) > 0;
      assert Insert(cfg, s, x) == Insert(cfg, init, x) + [last];
      forall k | j <= k < |init| ensures Compare(cfg, init[k], x) > 0 {
        assert init[k] == s[k];
      }
      if j > 0 {
        assert init[j - 1] == s[j - 1];
      }
      InsertSplits(cfg, init, x, j);
      DropLastParts(s, j);
    }
  }

  lemma DropLastParts(s: seq<Movie>, j: nat)
    requires j < |s|
    ensures s[..|s| - 1][..j] == s[..j]
    ensures s[..|s| - 1][j..] + [s[|s| - 1]] == s[j..]
  {
  }

  /** Moves every record of a[..i] that goes after x, from the right, one
      place to the right, and returns the gap left for x. */
  method ShiftGreater(a: array<Movie>, i: nat, x: Movie, cfg: SortConfig) returns (j: nat)
    requires i < a.Length
    modifies a
    ensures j <= i
    ensures forall k :: 0 <= k < j ==> a[k] == old(a[k])
    ensures forall k :: j < k <= i ==> a[k] == old(a[k - 1])
    ensures forall k :: i < k < a.Length ==> a[k] == old(a[k])
    ensures j == 0 || Compare(cfg, old(a[j - 1]), x) <= 0
    ensures forall k :: j <= k < i ==> Compare(cfg, old(a[k]), x) > 0
  {
    j := i;
    while j > 0 && Compare(cfg, a[j - 1], x) > 0
      invariant 0 <= j <= i
      invariant forall k :: 0 <= k < j ==> a[k] == old(a[k])
      invariant forall k :: j < k <= i ==> a[k] == old(a[k - 1])
      invariant forall k :: i < k < a.Length ==> a[k] == old(a[k])
      invariant forall k :: j <= k < i ==> Compare(cfg, old(a[k]), x) > 0
    {
      a[j] := a[j - 1];
      j := j - 1;
    }
  }

  /** Inserts a[i] into the sorted prefix a[..i], shifting the records that go
      after it one place to the right. */
  method InsertInPlace(a: array<Movie>, i: nat, cfg: SortConfig)
    requires i < a.Length
    modifies a
    ensures a[..i + 1] == Insert(cfg, old(a[..i]), old(a[i]))
    ensures a[i + 1..] == old(a[i + 1..])
  {
    ghost var before := a[..];
    var x := a[i];
    var j := ShiftGreater(a, i, x, cfg);
    InsertSplits(cfg, before[..i], x, j);
    a[j] := x;
    SpliceResult(before, a[..], x, i, j);
  }

  /** The array contents after the shift and the store of x, read as
      sequences: the first i + 1 records are x spliced in at j, and the rest
      is unchanged. */
  lemma SpliceResult(before: seq<Movie>, after: seq<Movie>, x: Movie, i: nat, j: nat)
    requires |after| == |before| && j <= i < |before|
    requires forall k :: 0 <= k < j ==> after[k] == before[k]
    requires after[j] == x
    requires forall k :: j < k <= i ==> after[k] == before[k - 1]
    requires forall k :: i < k < |after| ==> after[k] == before[k]
    ensures after[..i + 1] == before[..i][..j] + [x] + before[..i][j..]
    ensures after[i + 1..] == before[i + 1..]
  {
    var s := before[..i];
    var inserted := s[..j] + [x] + s[j..];
    assert |inserted| == i + 1;
    forall k | 0 <= k <= i ensures after[k] == inserted[k] {
      if k < j {
        assert inserted[k] == s[k];
      } else if k > j {
        assert inserted[k] == s[k - 1];
      }
    }
    assert after[..i + 1] == inserted;
    assert after[i + 1..] == before[i + 1..];
  }


  /** `result.sort(comparator)` on the working array. */
  method SortInPlace(a: array<Movie>, cfg: SortConfig)
    modifies a
    ensures a[..] == StableSort(cfg, old(a[..]))
  {
    ghost var s0 := a[..];
    var i := 0;
    while i < a.Length
      invariant 0 <= i <= a.Length
      invariant a[..i] == StableSort(cfg, s0[..i])
      invariant a[i..] == s0[i..]
    {
      TailParts(s0, a[..], i);
      InsertInPlace(a, i, cfg);
      StableSortStep(cfg, s0, i);
      i := i + 1;
    }
    assert s0[..a.Length] == s0;
    assert a[..a.Length] == a[..];
  }

  lemma TailParts(s0: seq<Movie>, s: seq<Movie>, i: nat)
    requires |s| == |s0| && i < |s|
    requires s[i..] == s0[i..]
    ensures s[i] == s0[i] && s[i + 1..] == s0[i + 1..]
  {
    assert s[i] == s[i..][0];
    assert s[i + 1..] == s[i..][1..];
  }

  lemma StableSortStep(cfg: SortConfig, s: seq<Movie>, i: nat)
    requires i < |s|
    ensures StableSort(cfg, s[..i + 1]) == Insert(cfg, StableSort(cfg, s[..i]), s[i])
  {
    assert s[..i + 1][..i] == s[..i];
  }
}
