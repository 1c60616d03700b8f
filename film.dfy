/** The Film record and its release-date check (model/Film.java). */
module FilmModel {
  import opened Results
  import opened Calendar

  /** The first public film screening: no film may be released before it. */
  const EarliestRelease := Date(1895, 12, 28)

  /** A film. `likes` holds the ids of the users who liked it; it is a set, so
      a user id is held at most once. */
  datatype Film = Film(
    id: int,
    name: string,
    description: string,
    releaseDate: Date,
    duration: int,
    likes: set<int>)

  /** Film.validate: rejects a release date strictly before EarliestRelease
      and accepts every other date, the boundary day included. */
  function Validate(f: Film): (r: Outcome)
    ensures r.Pass? <==> f.releaseDate == EarliestRelease || IsBefore(EarliestRelease, f.releaseDate)
    ensures r.Fail? ==> r.error == Validation(ReleaseTooEarly)
  {
    if IsBefore(f.releaseDate, EarliestRelease) then Fail(Validation(ReleaseTooEarly)) else Pass
  }

  /** The boundary day itself is accepted and the day before it is not. */
  lemma ValidateBoundary(f: Film)
    ensures Validate(f.(releaseDate := Date(1895, 12, 28))) == Pass
    ensures Validate(f.(releaseDate := Date(1895, 12, 27))) == Fail(Validation(ReleaseTooEarly))
  {
  }
}
