/** The like rules shared by both revisions of the film service
    (service/FilmService.java and service/impl/FilmServiceImpl.java), stated
    on the film map and the user map they read. */
module Likes {
  import opened Results
  import opened FilmModel
  import opened UserModel

  /** addLike: the film must exist, then the user must exist, then the like
      must be new; on success exactly that film gains the user id. */
  function AddLike(films: map<int, Film>, users: map<int, User>, filmId: int, userId: int)
    : (r: Result<map<int, Film>>)
    ensures filmId !in films ==> r == Err(NotFound(FilmWithId(filmId)))
    ensures filmId in films && userId !in users ==> r == Err(NotFound(UserWithId(userId)))
    ensures filmId in films && userId in users && userId in films[filmId].likes
            ==> r == Err(Validation(AlreadyLiked))
    ensures r.Ok? <==> filmId in films && userId in users && userId !in films[filmId].likes
    ensures r.Ok? ==> && r.value.Keys == films.Keys
                      && r.value[filmId] == films[filmId].(likes := films[filmId].likes + {userId})
                      && |r.value[filmId].likes| == |films[filmId].likes| + 1
                      && forall id | id in films && id != filmId :: r.value[id] == films[id]
  {
    if filmId !in films then Err(NotFound(FilmWithId(filmId)))
    else if userId !in users then Err(NotFound(UserWithId(userId)))
    else if userId in films[filmId].likes then Err(Validation(AlreadyLiked))
    else
      var film := films[filmId];
      Ok(films[filmId := film.(likes := film.likes + {userId})])
  }

  /** removeLike: the film must exist and hold the like; on success exactly
      that film loses the user id. The user itself is not looked up. */
  function RemoveLike(films: map<int, Film>, filmId: int, userId: int): (r: Result<map<int, Film>>)
    ensures filmId !in films ==> r == Err(NotFound(FilmWithId(filmId)))
    ensures filmId in films && userId !in films[filmId].likes ==> r == Err(NotFound(LikeFrom(userId)))
    ensures r.Ok? <==> filmId in films && userId in films[filmId].likes
    ensures r.Ok? ==> && r.value.Keys == films.Keys
                      && r.value[filmId] == films[filmId].(likes := films[filmId].likes - {userId})
                      && |r.value[filmId].likes| == |films[filmId].likes| - 1
                      && forall id | id in films && id != filmId :: r.value[id] == films[id]
  {
    if filmId !in films then Err(NotFound(FilmWithId(filmId)))
    else if userId !in films[filmId].likes then Err(NotFound(LikeFrom(userId)))
    else
      var film := films[filmId];
      Ok(films[filmId := film.(likes := film.likes - {userId})])
  }

  /** A second like by the same user is refused and changes nothing. */
  lemma SecondLikeRefused(films: map<int, Film>, users: map<int, User>, filmId: int, userId: int)
    requires AddLike(films, users, filmId, userId).Ok?
    ensures AddLike(AddLike(films, users, filmId, userId).value, users, filmId, userId)
            == Err(Validation(AlreadyLiked))
  {
  }

  /** Liking and then unliking restores the film map exactly, and a second
      unlike is NotFound for the like. */
  lemma {:induction false} LikeThenUnlike(films: map<int, Film>, users: map<int, User>, filmId: int, userId: int)
    requires AddLike(films, users, filmId, userId).Ok?
    ensures RemoveLike(AddLike(films, users, filmId, userId).value, filmId, userId) == Ok(films)
    ensures RemoveLike(films, filmId, userId) == Err(NotFound(LikeFrom(userId)))
  {
    var liked := AddLike(films, users, filmId, userId).value;
    var back := RemoveLike(liked, filmId, userId).value;
    assert back[filmId] == films[filmId];
    assert back == films;
  }

  /** Every like that AddLike creates refers to a stored user: if every like
      did before, every like does after. */
  lemma LikesStayResolvable(films: map<int, Film>, users: map<int, User>, filmId: int, userId: int)
    requires forall id, u | id in films && u in films[id].likes :: u in users
    requires AddLike(films, users, filmId, userId).Ok?
    ensures var after := AddLike(films, users, filmId, userId).value;
            forall id, u | id in after && u in after[id].likes :: u in users
  {
  }
}
