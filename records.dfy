/**
 * Catalog records as the list components read them, and the list helpers
 * shared by the filter stages and the collection store: the title text,
 * ASCII lower-casing, substring search and order-preserving filtering.
 */
module Records {
  import opened Wrappers

  /** One record of the catalog. An optional field is None when the JSON field
      is absent; for a string field None also stands for the empty string,
      which JavaScript treats as false. Scores are reals and dates are
      timestamps in milliseconds, as `new Date(..).getTime()` yields them. */
  datatype Movie = Movie(
    id: int,
    title: Option<string>,
    name: Option<string>,
    genreIds: seq<int>,
    genre: Option<string>,
    popularity: Option<real>,
    voteAverage: Option<real>,
    releaseDate: Option<int>,
    firstAirDate: Option<int>)

  /** `o || fallback` for an optional string: the empty string counts as missing. */
  function StringOr(o: Option<string>, fallback: string): (r: string)
    ensures r == fallback || (o.Some? && r == o.value && r != "")
    ensures o.Some? && o.value != "" ==> r == o.value
  {
    if o.Some? && o.value != "" then o.value else fallback
  }

  /** `m.title || m.name || ''`: the text that is searched and sorted by. */
  function TitleText(m: Movie): (r: string)
    ensures m.title.Some? && m.title.value != "" ==> r == m.title.value
    ensures (m.title.None? || m.title.value == "") && m.name.Some? && m.name.value != "" ==> r == m.name.value
    ensures (m.title.None? || m.title.value == "") && (m.name.None? || m.name.value == "") ==> r == ""
  {
    StringOr(m.title, StringOr(m.name, ""))
  }

  /** `toLowerCase` on one character, for the ASCII letters. */
  function LowerChar(c: char): (r: char)
    ensures 'A' <= c <= 'Z' ==> r as int == c as int + 32
    ensures !('A' <= c <= 'Z') ==> r == c
  {
    if 'A' <= c <= 'Z' then (c as int + 32) as char else c
  }

  /** `toLowerCase`, character by character. */
  function LowerCase(s: string): (r: string)
    ensures |r| == |s|
    ensures forall i :: 0 <= i < |s| ==> r[i] == LowerChar(s[i])
  {
    if s == [] then [] else [LowerChar(s[0])] + LowerCase(s[1..])
  }

  /** `needle` occurs in `hay` starting at index i. */
  ghost predicate OccursAt(hay: string, needle: string, i: int) {
    0 <= i && i + |needle| <= |hay| && hay[i..i + |needle|] == needle
  }

  /** `hay.includes(needle)`. */
  function Contains(hay: string, needle: string): (r: bool)
    ensures needle == [] ==> r
    ensures r ==> |needle| <= |hay|
    ensures hay == needle ==> r
    decreases |hay|
  {
    |needle| <= |hay| && (hay[..|needle|] == needle || Contains(hay[1..], needle))
  }

  /** Contains finds the needle exactly when it occurs somewhere in the text. */
  lemma {:induction false} ContainsIffOccurs(hay: string, needle: string)
    ensures Contains(hay, needle) <==> exists i :: OccursAt(hay, needle, i)
    decreases |hay|
  {
    if |needle| > |hay| {
    } else if hay[..|needle|] == needle {
      assert OccursAt(hay, needle, 0);
    } else {
      ContainsIffOccurs(hay[1..], needle);
      forall j | OccursAt(hay[1..], needle, j) ensures OccursAt(hay, needle, j + 1) {
        assert hay[j + 1..j + 1 + |needle|] == hay[1..][j..j + |needle|];
      }
      forall i | OccursAt(hay, needle, i) ensures OccursAt(hay[1..], needle, i - 1) {
        assert i != 0;
        assert hay[1..][i - 1..i - 1 + |needle|] == hay[i..i + |needle|];
      }
    }
  }

  /** `s.filter(p)`: the records of s that satisfy p, in their order in s. */
  function Keep(s: seq<Movie>, p: Movie -> bool): (r: seq<Movie>)
    ensures |r| <= |s|
  {
    if s == [] then [] else (if p(s[0]) then [s[0]] else []) + Keep(s[1..], p)
  }

  /** The filter keeps exactly the records of s that satisfy p. */
  lemma {:induction false} KeepMembers(s: seq<Movie>, p: Movie -> bool)
    ensures forall x :: x in Keep(s, p) <==> x in s && p(x)
  {
    if s != [] {
      var h := if p(s[0]) then [s[0]] else [];
      assert Keep(s, p) == h + Keep(s[1..], p);
      KeepMembers(s[1..], p);
      assert s == [s[0]] + s[1..];
    }
  }

  /** r is s with some elements left out and the rest in their order. */
  predicate IsSubsequence(r: seq<Movie>, s: seq<Movie>)
    decreases |s|
  {
    if r == [] then true
    else if s == [] then false
    else if r[0] == s[0] then IsSubsequence(r[1..], s[1..])
    else IsSubsequence(r, s[1..])
  }

  /** Filtering splits over concatenation; with Keep([x]) this fixes the order
      of the result completely. */
  lemma {:induction false} KeepConcat(a: seq<Movie>, b: seq<Movie>, p: Movie -> bool)
    ensures Keep(a + b, p) == Keep(a, p) + Keep(b, p)
  {
    if a == [] {
      assert a + b == b;
    } else {
      var ab := a + b;
      assert ab != [] && ab[0] == a[0];
      assert ab[1..] == a[1..] + b;
      var h := if p(a[0]) then [a[0]] else [];
      assert Keep(ab, p) == h + Keep(a[1..] + b, p);
      KeepConcat(a[1..], b, p);
      assert Keep(a, p) == h + Keep(a[1..], p);
    }
  }

  lemma {:induction false} KeepIsSubsequence(s: seq<Movie>, p: Movie -> bool)
    ensures IsSubsequence(Keep(s, p), s)
  {
    if s != [] {
      var r := Keep(s[1..], p);
      KeepIsSubsequence(s[1..], p);
      if p(s[0]) {
        assert Keep(s, p) == [s[0]] + r;
        assert Keep(s, p)[1..] == r;
      } else {
        assert Keep(s, p) == r;
        SubsequenceOfTail(r, s);
      }
    }
  }

  lemma {:induction false} SubsequenceOfTail(r: seq<Movie>, s: seq<Movie>)
    requires s != [] && IsSubsequence(r, s[1..])
    ensures IsSubsequence(r, s)
    decreases |s|, |r|
  {
    if r != [] && r[0] == s[0] {
      SubsequenceDropHead(r, s[1..]);
    }
  }

  lemma {:induction false} SubsequenceDropHead(r: seq<Movie>, s: seq<Movie>)
    requires r != [] && IsSubsequence(r, s)
    ensures IsSubsequence(r[1..], s)
    decreases |s|, |r|
  {
    if r[0] == s[0] {
      SubsequenceOfTail(r[1..], s);
    } else {
      SubsequenceDropHead(r, s[1..]);
      SubsequenceOfTail(r[1..], s);
    }
  }

  /** Leaving out records twice is leaving them out once. */
  lemma {:induction false} SubsequenceTransitive(a: seq<Movie>, b: seq<Movie>, c: seq<Movie>)
    requires IsSubsequence(a, b) && IsSubsequence(b, c)
    ensures IsSubsequence(a, c)
    decreases |c|
  {
    if a != [] {
      assert b != [] && c != [];
      if b[0] == c[0] {
        if a[0] == b[0] {
          SubsequenceTransitive(a[1..], b[1..], c[1..]);
        } else {
          SubsequenceTransitive(a, b[1..], c[1..]);
          SubsequenceOfTail(a, c);
        }
      } else {
        SubsequenceTransitive(a, b, c[1..]);
        SubsequenceOfTail(a, c);
      }
    }
  }

  /** Each record occurs in the result as often as in s when it satisfies p,
      and not at all otherwise. */
  lemma {:induction false} KeepCount(s: seq<Movie>, p: Movie -> bool, x: Movie)
    ensures multiset(Keep(s, p))[x] == if p(x) then multiset(s)[x] else 0
  {
    if s != [] {
      var h := if p(s[0]) then [s[0]] else [];
      assert Keep(s, p) == h + Keep(s[1..], p);
      KeepCount(s[1..], p, x);
      assert s == [s[0]] + s[1..];
      assert multiset(Keep(s, p)) == multiset(h) + multiset(Keep(s[1..], p));
    }
  }

  /** A filter that every record passes changes nothing. */
  lemma {:induction false} KeepAll(s: seq<Movie>, p: Movie -> bool)
    requires forall x :: x in s ==> p(x)
    ensures Keep(s, p) == s
  {
    if s != [] {
      assert Keep(s, p) == [s[0]] + Keep(s[1..], p);
      KeepAll(s[1..], p);
      assert s == [s[0]] + s[1..];
    }
  }

  /** Two filters in a row keep what both admit. */
  lemma {:induction false} KeepKeep(s: seq<Movie>, p: Movie -> bool, q: Movie -> bool)
    ensures Keep(Keep(s, p), q) == Keep(s, x => p(x) && q(x))
  {
    if s != [] {
      var pq := x => p(x) && q(x);
      var h := if p(s[0]) then [s[0]] else [];
      assert Keep(s, p) == h + Keep(s[1..], p);
      KeepConcat(h, Keep(s[1..], p), q);
      KeepKeep(s[1..], p, q);
      var hq := if pq(s[0]) then [s[0]] else [];
      assert Keep(h, q) == hq;
      assert Keep(s, pq) == hq + Keep(s[1..], pq);
    }
  }
}
