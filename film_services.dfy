/** The two revisions of the film service. Their code is the same; the newer
    one looks users up through the newer user service. Likes are changed in
    place on the stored film. */
module FilmServices {
  import opened Results
  import opened FilmModel
  import opened FilmStorage
  import opened UserServices
  import Likes
  import opened Popularity

  /** What getPopularFilms returns for the stored `films`: min(count, number
      of films) stored films, each at most once, most liked first, none of
      the films left out having more likes than a film kept. */
  ghost predicate PopularAnswer(films: map<int, Film>, count: nat, r: seq<Film>) {
    && |r| == (if count < |films| then count else |films|)
    && MostLikedFirst(r)
    && (forall i | 0 <= i < |r| :: r[i].id in films && films[r[i].id] == r[i])
    && (forall i, j | 0 <= i < j < |r| :: r[i].id != r[j].id)
    && (forall id | id in films && films[id] !in r ::
          forall i | 0 <= i < |r| :: LikeCount(films[id]) <= LikeCount(r[i]))
  }

  /** The ranking over a listing `all` of the stored films. */
  lemma RankingOfStoredFilms(films: map<int, Film>, all: seq<Film>, count: nat)
    requires |all| == |films|
    requires forall i | 0 <= i < |all| :: all[i].id in films && films[all[i].id] == all[i]
    requires forall id | id in films :: films[id] in all
    requires forall i, j | 0 <= i < j < |all| :: all[i].id != all[j].id
    ensures PopularAnswer(films, count, Popular(all, count))
  {
    var r := Popular(all, count);
    forall i | 0 <= i < |r| ensures r[i] in all {
      assert r[i] in multiset(r);
    }
    DistinctIdsOfPart(all, r);
    forall id | id in films && films[id] !in r
      ensures forall i | 0 <= i < |r| :: LikeCount(films[id]) <= LikeCount(r[i])
    {
      assert films[id] in all;
    }
  }

  /** A list whose films carry distinct ids holds each film at most once. */
  lemma {:induction false} AtMostOnce(all: seq<Film>, x: Film)
    requires forall i, j | 0 <= i < j < |all| :: all[i].id != all[j].id
    ensures multiset(all)[x] <= 1
  {
    if all != [] {
      var t := all[1..];
      assert all == [all[0]] + t;
      AtMostOnce(t, x);
      if x == all[0] {
        forall k | 0 <= k < |t| ensures t[k] != x {
          assert t[k] == all[k + 1];
        }
        assert x !in t;
      }
    }
  }

  /** Films drawn, each no more often than there, from a list with distinct
      ids also carry distinct ids. */
  lemma DistinctIdsOfPart(all: seq<Film>, r: seq<Film>)
    requires forall i, j | 0 <= i < j < |all| :: all[i].id != all[j].id
    requires multiset(r) <= multiset(all)
    ensures forall i, j | 0 <= i < j < |r| :: r[i].id != r[j].id
  {
    forall i, j | 0 <= i < j < |r| ensures r[i].id != r[j].id {
      assert r[i] in multiset(all) && r[j] in multiset(all);
      var p :| 0 <= p < |all| && all[p] == r[i];
      var q :| 0 <= q < |all| && all[q] == r[j];
      if r[i].id == r[j].id {
        assert p == q;
        assert r == r[..j] + r[j..];
        assert r[i] in r[..j] && r[j] in r[j..];
        assert multiset(r)[r[i]] >= 2;
        AtMostOnce(all, r[i]);
        assert false;
      }
    }
  }

  /** service/impl/FilmServiceImpl.java */
  class FilmServiceImpl {
    const filmStorage: InMemoryFilmStorage
    const userService: UserServiceImpl

    constructor (filmStorage: InMemoryFilmStorage, userService: UserServiceImpl)
      ensures this.filmStorage == filmStorage && this.userService == userService
    {
      this.filmStorage := filmStorage;
      this.userService := userService;
    }

    /** updateFilm: replaces the stored record, likes included; NotFound when
        the storage refuses the id, and then nothing changes. */
    method UpdateFilm(film: Film) returns (r: Result<Film>)
      requires filmStorage.Valid()
      modifies filmStorage
      ensures filmStorage.Valid() && filmStorage.nextId == old(filmStorage.nextId)
      ensures film.id in old(filmStorage.films) ==> r == Ok(film) && filmStorage.films == old(filmStorage.films)[film.id := film]
      ensures film.id !in old(filmStorage.films) ==> r == Err(NotFound(FilmWithId(film.id))) && filmStorage.films == old(filmStorage.films)
    {
      var updated := filmStorage.UpdateFilm(film);
      if updated.None? {
        return Err(NotFound(FilmWithId(film.id)));
      }
      return Ok(updated.value);
    }

    /** getFilm: the stored film, or NotFound naming the id. */
    function GetFilm(id: int): (r: Result<Film>)
      requires filmStorage.Valid()
      reads filmStorage
      ensures r.Ok? <==> id in filmStorage.films
      ensures r.Ok? ==> r.value == filmStorage.films[id] && r.value.id == id
      ensures r.Err? ==> r.error == NotFound(FilmWithId(id))
    {
      match filmStorage.GetFilm(id)
      case None => Err(NotFound(FilmWithId(id)))
      case Some(f) => Ok(f)
    }

    /** deleteFilm: delegates without checking, so an absent id is no error. */
    method DeleteFilm(id: int)
      requires filmStorage.Valid()
      modifies filmStorage
      ensures filmStorage.Valid() && filmStorage.nextId == old(filmStorage.nextId)
      ensures filmStorage.films == old(filmStorage.films) - {id}
    {
      filmStorage.DeleteFilm(id);
    }

    /** addLike: film, then user, must exist and the like must be new; then
        the user id is added to the stored film's likes. */
    method AddLike(filmId: int, userId: int) returns (r: Outcome)
      requires filmStorage.Valid() && userService.userStorage.Valid()
      modifies filmStorage
      ensures filmStorage.Valid() && filmStorage.nextId == old(filmStorage.nextId)
      ensures match Likes.AddLike(old(filmStorage.films), userService.userStorage.users, filmId, userId)
              case Ok(m) => r == Pass && filmStorage.films == m
              case Err(e) => r == Fail(e) && filmStorage.films == old(filmStorage.films)
    {
      var film := GetFilm(filmId);
      if film.Err? {
        return Fail(film.error);
      }
      var user := userService.GetUser(userId);
      if user.Err? {
        return Fail(user.error);
      }
      if userId in film.value.likes {
        return Fail(Validation(AlreadyLiked));
      }
      filmStorage.films := filmStorage.films[filmId := film.value.(likes := film.value.likes + {userId})];
      return Pass;
    }

    /** removeLike: the film must exist and hold the like; then the user id
        is removed from the stored film's likes. */
    method RemoveLike(filmId: int, userId: int) returns (r: Outcome)
      requires filmStorage.Valid()
      modifies filmStorage
      ensures filmStorage.Valid() && filmStorage.nextId == old(filmStorage.nextId)
      ensures match Likes.RemoveLike(old(filmStorage.films), filmId, userId)
              case Ok(m) => r == Pass && filmStorage.films == m
              case Err(e) => r == Fail(e) && filmStorage.films == old(filmStorage.films)
    {
      var film := GetFilm(filmId);
      if film.Err? {
        return Fail(film.error);
      }
      if userId !in film.value.likes {
        return Fail(NotFound(LikeFrom(userId)));
      }
      filmStorage.films := filmStorage.films[filmId := film.value.(likes := film.value.likes - {userId})];
      return Pass;
    }

    /** getPopularFilms: the `count` most liked stored films, most liked first. */
    method GetPopularFilms(count: int) returns (r: seq<Film>)
      requires filmStorage.Valid() && count >= 0
      ensures PopularAnswer(filmStorage.films, count, r)
    {
      var all := filmStorage.GetAllFilms();
      r := Popular(all, count);
      RankingOfStoredFilms(filmStorage.films, all, count);
    }
  }

  /** service/FilmService.java, the older revision. */
  class FilmService {
    const filmStorage: InMemoryFilmStorage
    const userService: UserService

    constructor (filmStorage: InMemoryFilmStorage, userService: UserService)
      ensures this.filmStorage == filmStorage && this.userService == userService
    {
      this.filmStorage := filmStorage;
      this.userService := userService;
    }

    /** updateFilm: as in the newer revision. */
    method UpdateFilm(film: Film) returns (r: Result<Film>)
      requires filmStorage.Valid()
      modifies filmStorage
      ensures filmStorage.Valid() && filmStorage.nextId == old(filmStorage.nextId)
      ensures film.id in old(filmStorage.films) ==> r == Ok(film) && filmStorage.films == old(filmStorage.films)[film.id := film]
      ensures film.id !in old(filmStorage.films) ==> r == Err(NotFound(FilmWithId(film.id))) && filmStorage.films == old(filmStorage.films)
    {
      var updated := filmStorage.UpdateFilm(film);
      if updated.None? {
        return Err(NotFound(FilmWithId(film.id)));
      }
      return Ok(updated.value);
    }

    /** getFilm: as in the newer revision. */
    function GetFilm(id: int): (r: Result<Film>)
      requires filmStorage.Valid()
      reads filmStorage
      ensures r.Ok? <==> id in filmStorage.films
      ensures r.Ok? ==> r.value == filmStorage.films[id] && r.value.id == id
      ensures r.Err? ==> r.error == NotFound(FilmWithId(id))
    {
      match filmStorage.GetFilm(id)
      case None => Err(NotFound(FilmWithId(id)))
      case Some(f) => Ok(f)
    }

    /** deleteFilm: as in the newer revision. */
    method DeleteFilm(id: int)
      requires filmStorage.Valid()
      modifies filmStorage
      ensures filmStorage.Valid() && filmStorage.nextId == old(filmStorage.nextId)
      ensures filmStorage.films == old(filmStorage.films) - {id}
    {
      filmStorage.DeleteFilm(id);
    }

    /** addLike: as in the newer revision, with users looked up through the
        older user service. */
    method AddLike(filmId: int, userId: int) returns (r: Outcome)
      requires filmStorage.Valid() && userService.userStorage.Valid()
      modifies filmStorage
      ensures filmStorage.Valid() && filmStorage.nextId == old(filmStorage.nextId)
      ensures match Likes.AddLike(old(filmStorage.films), userService.userStorage.users, filmId, userId)
              case Ok(m) => r == Pass && filmStorage.films == m
              case Err(e) => r == Fail(e) && filmStorage.films == old(filmStorage.films)
    {
      var film := GetFilm(filmId);
      if film.Err? {
        return Fail(film.error);
      }
      var user := userService.GetUser(userId);
      if user.Err? {
        return Fail(user.error);
      }
      if userId in film.value.likes {
        return Fail(Validation(AlreadyLiked));
      }
      filmStorage.films := filmStorage.films[filmId := film.value.(likes := film.value.likes + {userId})];
      return Pass;
    }

    /** removeLike: as in the newer revision. */
    method RemoveLike(filmId: int, userId: int) returns (r: Outcome)
      requires filmStorage.Valid()
      modifies filmStorage
      ensures filmStorage.Valid() && filmStorage.nextId == old(filmStorage.nextId)
      ensures match Likes.RemoveLike(old(filmStorage.films), filmId, userId)
              case Ok(m) => r == Pass && filmStorage.films == m
              case Err(e) => r == Fail(e) && filmStorage.films == old(filmStorage.films)
    {
      var film := GetFilm(filmId);
      if film.Err? {
        return Fail(film.error);
      }
      if userId !in film.value.likes {
        return Fail(NotFound(LikeFrom(userId)));
      }
      filmStorage.films := filmStorage.films[filmId := film.value.(likes := film.value.likes - {userId})];
      return Pass;
    }

    /** getPopularFilms: as in the newer revision. */
    method GetPopularFilms(count: int) returns (r: seq<Film>)
      requires filmStorage.Valid() && count >= 0
      ensures PopularAnswer(filmStorage.films, count, r)
    {
      var all := filmStorage.GetAllFilms();
      r := Popular(all, count);
      RankingOfStoredFilms(filmStorage.films, all, count);
    }
  }
}
