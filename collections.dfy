/**
 * The three personal collections of the application (favorites, watched,
 * watch later). Each is a list of whole records; a toggle removes every
 * entry with the record's id when there is one, and appends the record
 * otherwise. Each collection section passes its one collection to a movie
 * list as manual records; every list's status filter and card markers read
 * only the ids.
 */
module Collections {
  import opened Records

  /** `some(m => m.id === id)`. */
  function HasId(c: seq<Movie>, id: int): (r: bool)
    ensures r <==> exists i :: 0 <= i < |c| && c[i].id == id
  {
    if c == [] then false
    else if c[0].id == id then true
    else
      var r := HasId(c[1..], id);
      assert r ==> exists i :: 0 <= i < |c| && c[i].id == id by {
        if r {
          var i :| 0 <= i < |c| - 1 && c[1..][i].id == id;
          assert c[i + 1].id == id;
        }
      }
      assert (exists i :: 0 <= i < |c| && c[i].id == id) ==> r by {
        if exists i :: 0 <= i < |c| && c[i].id == id {
          var i :| 0 <= i < |c| && c[i].id == id;
          assert i != 0;
          assert c[1..][i - 1].id == id;
        }
      }
      r
  }

  /** `filter(m => m.id !== id)`: every entry with the id goes, the others
      stay in their order. */
  function WithoutId(c: seq<Movie>, id: int): (r: seq<Movie>)
    ensures !HasId(r, id)
    ensures forall x :: x in r <==> x in c && x.id != id
    ensures IsSubsequence(r, c)
    ensures forall x :: multiset(r)[x] == if x.id != id then multiset(c)[x] else 0
  {
    var p := (m: Movie) => m.id != id;
    KeepMembers(c, p);
    KeepIsSubsequence(c, p);
    forall x ensures multiset(Keep(c, p))[x] == if x.id != id then multiset(c)[x] else 0 {
      KeepCount(c, p, x);
    }
    var r := Keep(c, p);
    forall i | 0 <= i < |r| ensures r[i].id != id {
      assert r[i] in r;
    }
    r
  }

  /** Removing one id leaves every other id's membership as it was. */
  lemma WithoutIdKeepsOtherIds(c: seq<Movie>, id: int)
    ensures forall other :: other != id ==> (HasId(WithoutId(c, id), other) <==> HasId(c, other))
  {
    var r := WithoutId(c, id);
    forall other | other != id ensures HasId(r, other) <==> HasId(c, other) {
      if HasId(c, other) {
        var i :| 0 <= i < |c| && c[i].id == other;
        assert c[i] in r;
        var j :| 0 <= j < |r| && r[j] == c[i];
      }
      if HasId(r, other) {
        var j :| 0 <= j < |r| && r[j].id == other;
        assert r[j] in c;
        var i :| 0 <= i < |c| && c[i] == r[j];
      }
    }
  }

  /** A toggle: remove the record's id when present, else append the
      record. Only the record's id changes membership. */
  function Toggle(c: seq<Movie>, m: Movie): (r: seq<Movie>)
    ensures HasId(r, m.id) <==> !HasId(c, m.id)
    ensures forall id :: id != m.id ==> (HasId(r, id) <==> HasId(c, id))
  {
    if HasId(c, m.id) then
      WithoutIdKeepsOtherIds(c, m.id);
      WithoutId(c, m.id)
    else
      var r := c + [m];
      assert r[|c|].id == m.id;
      assert forall id :: id != m.id ==> (HasId(r, id) <==> HasId(c, id)) by {
        forall id | id != m.id ensures HasId(r, id) <==> HasId(c, id) {
          if HasId(r, id) {
            var i :| 0 <= i < |r| && r[i].id == id;
            assert i < |c| && c[i] == r[i];
          }
          if HasId(c, id) {
            var i :| 0 <= i < |c| && c[i].id == id;
            assert r[i] == c[i];
          }
        }
      }
      r
  }

  /** The two outcomes of a toggle: an absent record is appended at the end;
      a present id leaves the list, all its entries with it, and the rest
      keeps its order. */
  lemma ToggleOutcomes(c: seq<Movie>, m: Movie)
    ensures !HasId(c, m.id) ==> Toggle(c, m) == c + [m] && |Toggle(c, m)| == |c| + 1
    ensures HasId(c, m.id) ==> Toggle(c, m) == WithoutId(c, m.id) && |Toggle(c, m)| < |c|
    ensures HasId(c, m.id) ==> IsSubsequence(Toggle(c, m), c)
  {
    if HasId(c, m.id) {
      var i :| 0 <= i < |c| && c[i].id == m.id;
      var r := WithoutId(c, m.id);
      assert c[i] !in r;
      KeepShorter(c, (x: Movie) => x.id != m.id, c[i]);
    }
  }

  /** A filter that drops a record of s leaves fewer records. */
  lemma {:induction false} KeepShorter(s: seq<Movie>, p: Movie -> bool, x: Movie)
    requires x in s && !p(x)
    ensures |Keep(s, p)| < |s|
  {
    var h := if p(s[0]) then [s[0]] else [];
    assert Keep(s, p) == h + Keep(s[1..], p);
    if s[0] == x {
      assert h == [];
    } else {
      assert x in s[1..];
      KeepShorter(s[1..], p, x);
    }
  }

  /** Toggling the same record twice restores which ids the collection
      holds; when the id was absent it restores the list itself, and when it
      was present the record comes back at the end. */
  lemma ToggleTwice(c: seq<Movie>, m: Movie)
    ensures forall id :: HasId(Toggle(Toggle(c, m), m), id) <==> HasId(c, id)
    ensures !HasId(c, m.id) ==> Toggle(Toggle(c, m), m) == c
    ensures HasId(c, m.id) ==> Toggle(Toggle(c, m), m) == WithoutId(c, m.id) + [m]
  {
    if HasId(c, m.id) {
      ToggleTwicePresent(c, m);
    } else {
      ToggleTwiceAbsent(c, m);
    }
  }

  lemma ToggleTwiceAbsent(c: seq<Movie>, m: Movie)
    requires !HasId(c, m.id)
    ensures Toggle(Toggle(c, m), m) == c
  {
    var p := (x: Movie) => x.id != m.id;
    var t := c + [m];
    assert Toggle(c, m) == t;
    assert t[|c|].id == m.id;
    assert Toggle(t, m) == Keep(t, p);
    KeepConcat(c, [m], p);
    assert forall x :: x in c ==> p(x) by {
      forall x | x in c ensures p(x) {
        var i :| 0 <= i < |c| && c[i] == x;
      }
    }
    KeepAll(c, p);
    assert Keep([m], p) == [];
  }

  lemma ToggleTwicePresent(c: seq<Movie>, m: Movie)
    requires HasId(c, m.id)
    ensures Toggle(Toggle(c, m), m) == WithoutId(c, m.id) + [m]
  {
    var w := WithoutId(c, m.id);
    assert Toggle(c, m) == w;
    assert !HasId(w, m.id);
  }

  /** `map(m => m.id)`: the ids handed to the list component. */
  function Ids(c: seq<Movie>): (r: seq<int>)
    ensures |r| == |c|
    ensures forall i :: 0 <= i < |c| ==> r[i] == c[i].id
  {
    if c == [] then [] else [c[0].id] + Ids(c[1..])
  }

  /** The id list holds exactly the ids of the collection's entries. */
  lemma IdsMembership(c: seq<Movie>, id: int)
    ensures id in Ids(c) <==> HasId(c, id)
  {
    var ids := Ids(c);
    if id in ids {
      var i :| 0 <= i < |ids| && ids[i] == id;
      assert c[i].id == id;
    }
    if HasId(c, id) {
      var i :| 0 <= i < |c| && c[i].id == id;
      assert ids[i] == id;
    }
  }

  /** No two entries share an id. */
  ghost predicate UniqueIds(c: seq<Movie>) {
    forall i, j :: 0 <= i < j < |c| ==> c[i].id != c[j].id
  }

  /** A filter keeps ids unique. */
  lemma {:induction false} KeepKeepsUnique(s: seq<Movie>, p: Movie -> bool)
    requires UniqueIds(s)
    ensures UniqueIds(Keep(s, p))
  {
    if s != [] {
      var rest := Keep(s[1..], p);
      var h := if p(s[0]) then [s[0]] else [];
      assert Keep(s, p) == h + rest;
      assert UniqueIds(s[1..]) by {
        forall i, j | 0 <= i < j < |s| - 1 ensures s[1..][i].id != s[1..][j].id {
          assert s[1..][i] == s[i + 1] && s[1..][j] == s[j + 1];
        }
      }
      KeepKeepsUnique(s[1..], p);
      KeepMembers(s[1..], p);
      forall x | x in rest ensures x.id != s[0].id {
        var k :| 0 <= k < |s| - 1 && s[1..][k] == x;
        assert s[k + 1] == x;
      }
      var r := h + rest;
      forall i, j | 0 <= i < j < |r| ensures r[i].id != r[j].id {
        if h != [] && i == 0 {
          assert r[j] == rest[j - 1];
          assert r[j] in rest;
        } else {
          assert r[i] == rest[i - |h|] && r[j] == rest[j - |h|];
        }
      }
    }
  }

  /** A toggle keeps ids unique: it appends only an id that is absent. */
  lemma ToggleKeepsUnique(c: seq<Movie>, m: Movie)
    requires UniqueIds(c)
    ensures UniqueIds(Toggle(c, m))
  {
    if HasId(c, m.id) {
      KeepKeepsUnique(c, (x: Movie) => x.id != m.id);
    } else {
      var r := c + [m];
      forall i, j | 0 <= i < j < |r| ensures r[i].id != r[j].id {
        if j == |c| {
          assert r[i] == c[i];
        } else {
          assert r[i] == c[i] && r[j] == c[j];
        }
      }
    }
  }
}
