/** The "popular films" ranking of both film service revisions: a stable sort
    by descending number of likes, cut to the first `count` films. */
module Popularity {
  import opened FilmModel

  function LikeCount(f: Film): nat {
    |f.likes|
  }

  /** Like counts never increase along `s`. */
  predicate MostLikedFirst(s: seq<Film>) {
    forall i, j | 0 <= i < j < |s| :: LikeCount(s[j]) <= LikeCount(s[i])
  }

  /** The films of `s` with exactly `c` likes, in their order in `s`. */
  function WithCount(s: seq<Film>, c: nat): seq<Film> {
    if s == [] then [] else Matching(s[0], c) + WithCount(s[1..], c)
  }

  /** `[x]` when `x` has `c` likes, otherwise nothing. */
  function Matching(x: Film, c: nat): seq<Film> {
    if LikeCount(x) == c then [x] else []
  }

  /** Puts `f` in front of the first film that has no more likes than it,
      so `f` precedes every film it ties with. */
  function Insert(f: Film, s: seq<Film>): (r: seq<Film>)
    requires MostLikedFirst(s)
    ensures MostLikedFirst(r) && multiset(r) == multiset(s) + multiset{f}
  {
    if s == [] || LikeCount(s[0]) <= LikeCount(f) then
      ConsRanked(f, s);
      [f] + s
    else
      var rest := Insert(f, s[1..]);
      RankedBelowHead(f, s, rest);
      ConsRanked(s[0], rest);
      assert multiset(s) == multiset{s[0]} + multiset(s[1..]) by {
        assert s == [s[0]] + s[1..];
      }
      [s[0]] + rest
  }

  /** A film with at least the likes of the head of a ranked list can go in
      front of it. */
  lemma ConsRanked(x: Film, s: seq<Film>)
    requires MostLikedFirst(s) && (s == [] || LikeCount(s[0]) <= LikeCount(x))
    ensures MostLikedFirst([x] + s)
  {
    var r := [x] + s;
    forall i, j | 0 <= i < j < |r| ensures LikeCount(r[j]) <= LikeCount(r[i]) {
      assert r[j] == s[j - 1];
      if i > 0 {
        assert r[i] == s[i - 1];
      }
    }
  }

  /** Every film of `rest`, which holds the tail of `s` and a film `f` ranked
      below the head of `s`, has no more likes than that head. */
  lemma RankedBelowHead(f: Film, s: seq<Film>, rest: seq<Film>)
    requires MostLikedFirst(s) && s != [] && LikeCount(f) < LikeCount(s[0])
    requires multiset(rest) == multiset(s[1..]) + multiset{f}
    ensures forall i | 0 <= i < |rest| :: LikeCount(rest[i]) <= LikeCount(s[0])
  {
    forall i | 0 <= i < |rest| ensures LikeCount(rest[i]) <= LikeCount(s[0]) {
      assert rest[i] in multiset(rest);
      if rest[i] != f {
        assert rest[i] in multiset(s[1..]);
        var k :| 0 <= k < |s[1..]| && s[1..][k] == rest[i];
        assert s[k + 1] == rest[i];
      }
    }
  }

  /** The sort of Comparator.comparingInt(f -> -likes): stable insertion sort. */
  function SortByLikes(s: seq<Film>): (r: seq<Film>)
    ensures MostLikedFirst(r) && multiset(r) == multiset(s) && |r| == |s|
  {
    if s == [] then []
    else
      var t := SortByLikes(s[1..]);
      var r := Insert(s[0], t);
      assert multiset(s) == multiset(s[1..]) + multiset{s[0]} by {
        assert s == [s[0]] + s[1..];
      }
      assert multiset(r) == multiset(s);
      assert |r| == |multiset(r)|;
      r
  }

  /** The first `n` films of `s`, or all of them: Stream.limit. */
  function Take(s: seq<Film>, n: nat): (r: seq<Film>)
    ensures |r| == (if n < |s| then n else |s|) && r == s[..|r|]
  {
    if n < |s| then s[..n] else s
  }


  /** In a ranked list, every film after position `k` has no more likes
      than any film before it. */
  lemma {:induction false} RankedSplit(s: seq<Film>, k: nat)
    requires MostLikedFirst(s) && k <= |s|
    ensures MostLikedFirst(s[..k])
    ensures forall f, g | f in s[..k] && g in multiset(s[k..]) :: LikeCount(g) <= LikeCount(f)
  {
    forall f, g | f in s[..k] && g in multiset(s[k..]) ensures LikeCount(g) <= LikeCount(f) {
      var i :| 0 <= i < k && s[..k][i] == f;
      var j :| 0 <= j < |s[k..]| && s[k..][j] == g;
      assert s[i] == f && s[k + j] == g;
    }
  }

  /** Cutting a ranked permutation of `all` after `count` films keeps
      min(count, |all|) films, ranked, drawn from `all`, and leaves out no
      film of `all` with more likes than a film kept. */
  lemma {:induction false} TakeOfRanked(all: seq<Film>, sorted: seq<Film>, count: nat)
    requires MostLikedFirst(sorted) && multiset(sorted) == multiset(all)
    ensures |Take(sorted, count)| == if count < |all| then count else |all|
    ensures MostLikedFirst(Take(sorted, count))
    ensures multiset(Take(sorted, count)) <= multiset(all)
    ensures forall f, g | f in Take(sorted, count) && g in all && g !in Take(sorted, count)
              :: LikeCount(g) <= LikeCount(f)
  {
    assert |sorted| == |multiset(sorted)| == |multiset(all)| == |all|;
    var k := if count < |sorted| then count else |sorted|;
    assert Take(sorted, count) == sorted[..k];
    RankedSplit(sorted, k);
    LeftOutComesLater(all, sorted, k);
  }

  /** A film of `all` missing from the first `k` films of a permutation
      `sorted` of `all` is among the rest. */
  lemma LeftOutComesLater(all: seq<Film>, sorted: seq<Film>, k: nat)
    requires multiset(sorted) == multiset(all) && k <= |sorted|
    ensures multiset(sorted[..k]) <= multiset(all)
    ensures forall g | g in all && g !in sorted[..k] :: g in multiset(sorted[k..])
  {
    var kept, left := sorted[..k], sorted[k..];
    assert sorted == kept + left;
    assert multiset(sorted) == multiset(kept) + multiset(left);
    forall g | g in all && g !in kept ensures g in multiset(left) {
      assert g in multiset(all);
      var j :| 0 <= j < |sorted| && sorted[j] == g;
      assert left[j - k] == g;
    }
  }

  /** getPopularFilms on the list `all`: sort, then keep the first `count`.
      The ranking has min(count, |all|) films, most liked first, all drawn
      from `all`; no film it leaves out has more likes than a film it keeps. */
  function Popular(all: seq<Film>, count: nat): (r: seq<Film>)
    ensures |r| == if count < |all| then count else |all|
    ensures MostLikedFirst(r)
    ensures multiset(r) <= multiset(all)
    ensures forall f, g | f in r && g in all && g !in r :: LikeCount(g) <= LikeCount(f)
  {
    TakeOfRanked(all, SortByLikes(all), count);
    Take(SortByLikes(all), count)
  }

  /** The films of `[x] + s` with `c` likes. */
  lemma WithCountCons(x: Film, s: seq<Film>, c: nat)
    ensures WithCount([x] + s, c) == Matching(x, c) + WithCount(s, c)
  {
    assert ([x] + s)[1..] == s;
  }

  /** Two films with different like counts never both match `c`, so their
      matches commute. */
  lemma SwapMatches(x: Film, y: Film, w: seq<Film>, c: nat)
    requires LikeCount(x) != LikeCount(y)
    ensures Matching(x, c) + (Matching(y, c) + w) == Matching(y, c) + (Matching(x, c) + w)
  {
  }

  /** Inserting into a ranked list keeps the relative order of the films that
      share a like count, `f` first among its ties. */
  lemma {:induction false} InsertIsStable(f: Film, s: seq<Film>, c: nat)
    requires MostLikedFirst(s)
    ensures WithCount(Insert(f, s), c) == WithCount([f] + s, c)
  {
    if s != [] && LikeCount(f) < LikeCount(s[0]) {
      var t := s[1..];
      var rest := Insert(f, t);
      InsertIsStable(f, t, c);
      assert Insert(f, s) == [s[0]] + rest;
      assert s == [s[0]] + t;
      WithCountCons(s[0], rest, c);
      WithCountCons(f, t, c);
      SwapMatches(s[0], f, WithCount(t, c), c);
      WithCountCons(s[0], t, c);
      WithCountCons(f, s, c);
    }
  }

  /** The sort is stable: for every like count, the films with that count
      appear in the ranking in the order they had in the input. */
  lemma {:induction false} SortIsStable(s: seq<Film>, c: nat)
    ensures WithCount(SortByLikes(s), c) == WithCount(s, c)
  {
    if s != [] {
      SortIsStable(s[1..], c);
      InsertIsStable(s[0], SortByLikes(s[1..]), c);
      assert ([s[0]] + SortByLikes(s[1..]))[1..] == SortByLikes(s[1..]);
    }
  }
}
