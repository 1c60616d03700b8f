/** The in-memory film store (storage/film/InMemoryFilmStorage.java): a map
    from id to film and the counter that issues the next id. */
module FilmStorage {
  import opened Results
  import opened FilmModel
  import Enumeration

  class InMemoryFilmStorage {
    var films: map<int, Film>
    var nextId: int

    /** Every film is stored under its own id, and every stored id was
        issued before: ids run from 1 and stay below nextId. */
    ghost predicate Valid()
      reads this
    {
      && 1 <= nextId
      && forall id | id in films :: films[id].id == id && 1 <= id < nextId
    }

    constructor ()
      ensures Valid() && films == map[] && nextId == 1
    {
      films := map[];
      nextId := 1;
    }

    /** A fresh list of exactly the stored films, each once, in the map's
        unspecified order. */
    method GetAllFilms() returns (r: seq<Film>)
      requires Valid()
      ensures |r| == |films|
      ensures forall i | 0 <= i < |r| :: r[i].id in films && films[r[i].id] == r[i]
      ensures forall id | id in films :: films[id] in r
      ensures forall i, j | 0 <= i < j < |r| :: r[i].id != r[j].id
    {
      var ids := Enumeration.Enumerate(films.Keys);
      assert |films.Keys| == |films|;
      r := Enumeration.ValuesAt(films, ids);
      forall i | 0 <= i < |r| ensures r[i].id == ids[i] {
        assert ids[i] in films;
      }
      forall id | id in films ensures films[id] in r {
        var i :| 0 <= i < |ids| && ids[i] == id;
        assert r[i] == films[id];
      }
    }

    /** Stores `film` under a newly issued id, ignoring the id it carries;
        the new id is above every id already stored. */
    method AddFilm(film: Film) returns (stored: Film)
      requires Valid()
      modifies this
      ensures Valid()
      ensures stored == film.(id := old(nextId))
      ensures films == old(films)[stored.id := stored] && nextId == old(nextId) + 1
      ensures stored.id !in old(films) && forall id | id in old(films) :: id < stored.id
    {
      stored := film.(id := nextId);
      nextId := nextId + 1;
      films := films[stored.id := stored];
    }

    /** Replaces the whole stored record, likes included, when the id is
        stored; otherwise answers None and changes nothing. */
    method UpdateFilm(film: Film) returns (r: Option<Film>)
      requires Valid()
      modifies this
      ensures Valid() && nextId == old(nextId) && films.Keys == old(films.Keys)
      ensures film.id in old(films) ==> r == Some(film) && films == old(films)[film.id := film]
      ensures film.id !in old(films) ==> r == None && films == old(films)
    {
      if film.id !in films {
        return None;
      }
      films := films[film.id := film];
      return Some(film);
    }

    /** The film stored under `id`, or None when there is none. */
    function GetFilm(id: int): (r: Option<Film>)
      requires Valid()
      reads this
      ensures r.None? <==> id !in films
      ensures r.Some? ==> r.value == films[id] && r.value.id == id
    {
      if id in films then Some(films[id]) else None
    }

    /** Removes `id` if stored, silently otherwise; the counter is kept, so
        the id is never issued again. */
    method DeleteFilm(id: int)
      requires Valid()
      modifies this
      ensures Valid() && nextId == old(nextId)
      ensures films == old(films) - {id}
    {
      films := films - {id};
    }
  }
}
