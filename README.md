# Filmorate domain core in Dafny

This project models the in-memory domain layer of Filmorate, a film and user
tracker. Users like films and befriend each other. The model covers:

- the film store `InMemoryFilmStorage`: a map from id to film and an id counter;
- the user store that the services depend on, shaped like the film store;
- `UserController`, which keeps its own user map and counter and applies the
  default-name rule;
- `Film.validate`, the release-date floor of 28 December 1895;
- both revisions of the services. `FilmService`/`UserService` are the older
  drafts and `FilmServiceImpl`/`UserServiceImpl` the newer ones. They hold the
  like rules, symmetric friendship, friend and common-friend listing, and the
  "popular films" ranking.

Films and users are datatype values. Each store is a class whose `map` field
the methods reassign, with a `Valid()` invariant: every record is stored
under its own id, and ids run from 1 up to below the counter. Where the Java
services change a stored object in place (`film.getLikes().add(...)`,
`user.getFriends().add(...)`), the model writes the changed record back into
the store's map. The service methods that change likes or
friendships are proved against pure functions of the old state (modules
`Likes` and `Friendship`), and the lemmas about those functions carry the
business rules. The store methods state the new map outright.

Exceptions are values. `Results.Failure` is `NotFound` (a
ResourceNotFoundException, saying what was missing) or `Validation` (a
ValidationException, saying why). `Messages.Message` renders the exact text
each exception carries.

Iteration over a `HashMap`'s values or a `HashSet` has no specified order.
`Enumeration.Enumerate` therefore lists a set in an order chosen freely.
Every result that depends on iteration order is specified for any order.

The code and the model differ from what one might expect of such a system in
these places. The model follows the code:

- `updateFilm` replaces the whole record, `likes` included. It does not keep
  the stored likes.
- `deleteUser` removes only the user. Friend sets and likes keep the deleted
  id, so a later `getFriends` of a former friend fails with NotFound
  (`Friendship.DeleteLeavesDanglingFriend`).
- `addFriend(u, u)` is not refused. It puts `u` into its own friend set.
- Ties in `getPopularFilms` are not broken by id. The sort is stable over the
  storage's iteration order.
- Deleting an absent film is not an error, in either revision.

## Model

| member | source | states |
|---|---|---|
| `Calendar.IsBefore` | src/main/java/ru/yandex/practicum/filmorate/model/Film.java:32 | `isBefore` on dates whose month and day are in range agrees with comparing their day keys ((year * 13 + month) * 32 + day), an ordering independent of the field-by-field comparison |
| `Calendar.IsBeforeStrictTotalOrder` | src/main/java/ru/yandex/practicum/filmorate/model/Film.java:32 | the date comparison `isBefore` is irreflexive and transitive, and relates any two distinct dates one way round |
| `FilmModel.Validate` | src/main/java/ru/yandex/practicum/filmorate/model/Film.java:31-35 | validate passes exactly for release dates on or after 1895-12-28; otherwise it is a Validation failure for the release date; it changes nothing (a function) |
| `FilmModel.ValidateBoundary` | src/main/java/ru/yandex/practicum/filmorate/model/Film.java:32 | 1895-12-28 itself is accepted (strict isBefore) and 1895-12-27 is rejected |
| `Enumeration.Enumerate` | src/main/java/ru/yandex/practicum/filmorate/service/impl/UserServiceImpl.java:76 | streaming a set yields each element exactly once, in an order callers may not rely on |
| `FilmStorage.InMemoryFilmStorage.constructor` | src/main/java/ru/yandex/practicum/filmorate/storage/film/InMemoryFilmStorage.java:10-11 | an empty store whose first issued id is 1 |
| `FilmStorage.InMemoryFilmStorage.GetAllFilms` | src/main/java/ru/yandex/practicum/filmorate/storage/film/InMemoryFilmStorage.java:14-16 | a list of exactly the stored films, each once (distinct ids), its length the map's size |
| `FilmStorage.InMemoryFilmStorage.AddFilm` | src/main/java/ru/yandex/practicum/filmorate/storage/film/InMemoryFilmStorage.java:19-23 | the caller's id is replaced by the counter; the film is stored under it and no other entry changes; the counter grows by one, so the new id is above every stored id and never reused |
| `FilmStorage.InMemoryFilmStorage.UpdateFilm` | src/main/java/ru/yandex/practicum/filmorate/storage/film/InMemoryFilmStorage.java:26-32 | absent id: None and nothing changes; present id: the whole record, likes included, is replaced; the key set and counter are unchanged |
| `FilmStorage.InMemoryFilmStorage.GetFilm` | src/main/java/ru/yandex/practicum/filmorate/storage/film/InMemoryFilmStorage.java:35-37 | None exactly when the id is not stored; otherwise the stored film, which carries that id |
| `FilmStorage.InMemoryFilmStorage.DeleteFilm` | src/main/java/ru/yandex/practicum/filmorate/storage/film/InMemoryFilmStorage.java:40-42 | the key is removed, a silent no-op when absent; the counter is kept, so ids are not reused |
| `UserStorageModel.UserStorage.constructor` | src/main/java/ru/yandex/practicum/filmorate/storage/film/InMemoryFilmStorage.java:10-11 | the user store, whose source is not part of this model, starts like the film store: empty, with first id 1 |
| `UserStorageModel.UserStorage.CreateUser` | src/main/java/ru/yandex/practicum/filmorate/service/impl/UserServiceImpl.java:23-25 | stores the user under a newly issued id above every stored id; nothing else changes |
| `UserStorageModel.UserStorage.UpdateUser` | src/main/java/ru/yandex/practicum/filmorate/service/impl/UserServiceImpl.java:28-29 | None for an absent id with nothing changed; otherwise that entry alone is replaced |
| `UserStorageModel.UserStorage.GetUser` | src/main/java/ru/yandex/practicum/filmorate/service/impl/UserServiceImpl.java:36-37 | None exactly when the id is not stored; otherwise the stored user with that id |
| `UserStorageModel.UserStorage.GetAllUsers` | src/main/java/ru/yandex/practicum/filmorate/service/impl/UserServiceImpl.java:43-45 | exactly the stored users, each once |
| `UserStorageModel.UserStorage.DeleteUser` | src/main/java/ru/yandex/practicum/filmorate/service/impl/UserServiceImpl.java:51 | removes the key, silently when absent; the counter is kept |
| `UserControllerModel.IsWhitespace` | src/main/java/ru/yandex/practicum/filmorate/controller/UserController.java:24 | a character is whitespace exactly when it is a Unicode space, line or paragraph separator other than the no-break spaces U+00A0, U+2007 and U+202F, or one of the controls U+0009-U+000D and U+001C-U+001F, as Character.isWhitespace documents |
| `UserControllerModel.IsBlank` | src/main/java/ru/yandex/practicum/filmorate/controller/UserController.java:24 | `isBlank`, computed as "the first non-whitespace index is the length", holds exactly when every character is whitespace, the empty name included |
| `UserControllerModel.WithDefaultName` | src/main/java/ru/yandex/practicum/filmorate/controller/UserController.java:24-27 | a null or blank (whitespace-only, by Character.isWhitespace) name becomes the login; a non-blank name and every other field are kept |
| `UserControllerModel.DefaultNameIsSettled` | src/main/java/ru/yandex/practicum/filmorate/controller/UserController.java:24-27 | with a login non-blank by Character.isWhitespace the resulting name is present and non-blank, and the rule is idempotent |
| `UserControllerModel.AnnotationsAdmitBlankLogin` | src/main/java/ru/yandex/practicum/filmorate/model/User.java:16-17 | a login of only U+3000 passes `@NotBlank` (something left after trim) and `@Pattern("\\S+")` (no ASCII whitespace), yet is blank by isBlank, so createUser without a name stores a blank name |
| `UserControllerModel.UserController.constructor` | src/main/java/ru/yandex/practicum/filmorate/controller/UserController.java:17-18 | an empty map whose first id is 1 |
| `UserControllerModel.UserController.CreateUser` | src/main/java/ru/yandex/practicum/filmorate/controller/UserController.java:21-33 | the stored user is the default-named input with id = old counter; the map gains exactly one entry (size + 1), above every stored id; the counter grows by one |
| `UserControllerModel.UserController.UpdateUser` | src/main/java/ru/yandex/practicum/filmorate/controller/UserController.java:36-47 | absent id: NotFound naming no id, map unchanged; present id: that entry alone replaced, key set unchanged |
| `UserControllerModel.UserController.GetAllUsers` | src/main/java/ru/yandex/practicum/filmorate/controller/UserController.java:50-55 | exactly the stored users, its length the map's size |
| `Likes.AddLike` | src/main/java/ru/yandex/practicum/filmorate/service/impl/FilmServiceImpl.java:60-68 | NotFound for the film first, then for the user; Validation when the like exists; success exactly otherwise, and then only that film changes, its likes gaining the user (size + 1) |
| `Likes.RemoveLike` | src/main/java/ru/yandex/practicum/filmorate/service/impl/FilmServiceImpl.java:71-76 | NotFound for the film, or for the like when the user id is not in likes; otherwise only that film changes, losing exactly that id (size - 1) |
| `Likes.SecondLikeRefused` | src/main/java/ru/yandex/practicum/filmorate/service/impl/FilmServiceImpl.java:64-66 | after a successful like, the same like is a Validation failure |
| `Likes.LikeThenUnlike` | src/main/java/ru/yandex/practicum/filmorate/service/impl/FilmServiceImpl.java:60-76 | a like followed by an unlike restores the film map exactly; unliking when the like is absent is NotFound for the like |
| `Likes.LikesStayResolvable` | src/main/java/ru/yandex/practicum/filmorate/service/impl/FilmServiceImpl.java:61-62 | a like is only recorded for a stored user, so likes that named stored users still do |
| `Popularity.Insert` | src/main/java/ru/yandex/practicum/filmorate/service/impl/FilmServiceImpl.java:81 | inserting into a list ranked by likes keeps it ranked and adds exactly the one film |
| `Popularity.SortByLikes` | src/main/java/ru/yandex/practicum/filmorate/service/impl/FilmServiceImpl.java:80-81 | the sort by descending like count yields a ranked permutation of its input |
| `Popularity.RankedBelowHead` | src/main/java/ru/yandex/practicum/filmorate/service/impl/FilmServiceImpl.java:81 | insertion below the head of a ranked list places nothing above the head |
| `Popularity.ConsRanked` | src/main/java/ru/yandex/practicum/filmorate/service/impl/FilmServiceImpl.java:81 | a film with at least the likes of a ranked list's head can be put in front and the list stays ranked |
| `Popularity.TakeOfRanked` | src/main/java/ru/yandex/practicum/filmorate/service/impl/FilmServiceImpl.java:82 | keeping the first `count` films of any ranked permutation of the input keeps min(count, n) films, ranked, drawn from the input, with no left-out film more liked than a kept one |
| `Popularity.RankedSplit` | src/main/java/ru/yandex/practicum/filmorate/service/impl/FilmServiceImpl.java:82 | cutting a ranked list keeps a ranked prefix with nothing after it more liked |
| `Popularity.Take` | src/main/java/ru/yandex/practicum/filmorate/service/impl/FilmServiceImpl.java:82 | `limit(count)` keeps the first min(count, n) films of the stream, in order |
| `Popularity.Popular` | src/main/java/ru/yandex/practicum/filmorate/service/impl/FilmServiceImpl.java:79-84 | the sort-then-limit result has min(count, n) films, ranked, drawn from the input (sub-multiset), and no left-out film has more likes than a kept one |
| `Popularity.InsertIsStable` | src/main/java/ru/yandex/practicum/filmorate/service/impl/FilmServiceImpl.java:81 | an insertion keeps the relative order of films with equal like counts |
| `Popularity.SortIsStable` | src/main/java/ru/yandex/practicum/filmorate/service/impl/FilmServiceImpl.java:80-81 | the sort is stable: films with equal counts keep their input order |
| `FilmServices.RankingOfStoredFilms` | src/main/java/ru/yandex/practicum/filmorate/service/impl/FilmServiceImpl.java:79-84 | ranking any listing of the stored films gives min(count, films) stored films, each at most once (distinct ids), most liked first, none left out more liked than one kept |
| `FilmServices.FilmServiceImpl.constructor` | src/main/java/ru/yandex/practicum/filmorate/service/impl/FilmServiceImpl.java:20-24 | the service keeps the storage and user service it is given |
| `FilmServices.FilmServiceImpl.UpdateFilm` | src/main/java/ru/yandex/practicum/filmorate/service/impl/FilmServiceImpl.java:31-38 | NotFound naming the id exactly when storage answers null, with nothing changed; otherwise the record is replaced |
| `FilmServices.FilmServiceImpl.GetFilm` | src/main/java/ru/yandex/practicum/filmorate/service/impl/FilmServiceImpl.java:40-47 | NotFound naming the id exactly when the id is not stored; otherwise the stored film |
| `FilmServices.FilmServiceImpl.DeleteFilm` | src/main/java/ru/yandex/practicum/filmorate/service/impl/FilmServiceImpl.java:54-57 | no existence check: the key is removed, and an absent id is no error |
| `FilmServices.FilmServiceImpl.AddLike` | src/main/java/ru/yandex/practicum/filmorate/service/impl/FilmServiceImpl.java:59-68 | the outcome and new film map are those of `Likes.AddLike`; on failure nothing changes |
| `FilmServices.FilmServiceImpl.RemoveLike` | src/main/java/ru/yandex/practicum/filmorate/service/impl/FilmServiceImpl.java:70-76 | the outcome and new film map are those of `Likes.RemoveLike`; on failure nothing changes |
| `FilmServices.FilmServiceImpl.GetPopularFilms` | src/main/java/ru/yandex/practicum/filmorate/service/impl/FilmServiceImpl.java:78-84 | min(count, films) stored films, each at most once, ordered by non-increasing like count, none left out more liked than one kept |
| `FilmServices.FilmService.constructor` | src/main/java/ru/yandex/practicum/filmorate/service/FilmService.java:19-23 | the older service keeps its storage and older user service |
| `FilmServices.FilmService.UpdateFilm` | src/main/java/ru/yandex/practicum/filmorate/service/FilmService.java:29-35 | NotFound naming the id (message "Фильм с ID <id> не найден") when storage answers null, nothing changed |
| `FilmServices.FilmService.GetFilm` | src/main/java/ru/yandex/practicum/filmorate/service/FilmService.java:37-43 | NotFound naming the id exactly when absent; otherwise the stored film |
| `FilmServices.FilmService.DeleteFilm` | src/main/java/ru/yandex/practicum/filmorate/service/FilmService.java:49-51 | deleting an absent id is a silent no-op |
| `FilmServices.FilmService.AddLike` | src/main/java/ru/yandex/practicum/filmorate/service/FilmService.java:53-61 | film, then user, checked before any change; a duplicate like is a Validation failure; success adds the user id to exactly that film |
| `FilmServices.FilmService.RemoveLike` | src/main/java/ru/yandex/practicum/filmorate/service/FilmService.java:63-68 | an absent like is NotFound; otherwise exactly that id is removed |
| `FilmServices.FilmService.GetPopularFilms` | src/main/java/ru/yandex/practicum/filmorate/service/FilmService.java:70-75 | min(count, films) stored films, each at most once, ordered by non-increasing like count, none left out more liked than one kept |
| `Friendship.Befriend` | src/main/java/ru/yandex/practicum/filmorate/service/impl/UserServiceImpl.java:62-63 | each of the two users gains the other as friend (one set when they are the same user); no other user and no other field changes |
| `Friendship.Unfriend` | src/main/java/ru/yandex/practicum/filmorate/service/impl/UserServiceImpl.java:70-71 | each of the two users loses the other as friend; nothing else changes |
| `Friendship.AddFriendUnguarded` | src/main/java/ru/yandex/practicum/filmorate/service/UserService.java:49-54 | NotFound for the user, then for the friend; success exactly when both exist, with no duplicate check |
| `Friendship.AddFriendGuarded` | src/main/java/ru/yandex/practicum/filmorate/service/impl/UserServiceImpl.java:54-64 | NotFound for the user, then the friend; Validation when already a friend; success exactly otherwise |
| `Friendship.RemoveFriend` | src/main/java/ru/yandex/practicum/filmorate/service/impl/UserServiceImpl.java:66-72 | NotFound for either missing user; success whenever both exist, friends or not |
| `Friendship.DeleteGuarded` | src/main/java/ru/yandex/practicum/filmorate/service/impl/UserServiceImpl.java:47-52 | NotFound exactly for an absent id; otherwise only that user is removed and every other record is as it was |
| `Friendship.ResolveAll` | src/main/java/ru/yandex/practicum/filmorate/service/impl/UserServiceImpl.java:76-78 | mapping ids through getUser succeeds exactly when all are stored, giving the stored users in order; otherwise NotFound for the first unstored id |
| `Friendship.KeepIn` | src/main/java/ru/yandex/practicum/filmorate/service/impl/UserServiceImpl.java:85-86 | the filter keeps exactly the ids that lie in the other friend set, and keeps them distinct |
| `Friendship.BefriendKeepsSymmetry` | src/main/java/ru/yandex/practicum/filmorate/service/impl/UserServiceImpl.java:62-63 | adding a friendship keeps friendship symmetric and makes the two users mutual friends |
| `Friendship.UnfriendKeepsSymmetry` | src/main/java/ru/yandex/practicum/filmorate/service/impl/UserServiceImpl.java:70-71 | removing a friendship keeps it symmetric and leaves neither a friend of the other |
| `Friendship.FriendshipKeepsResolvable` | src/main/java/ru/yandex/practicum/filmorate/service/impl/UserServiceImpl.java:55-56 | since both users must exist, adding or removing a friendship leaves every friend id stored if it was before |
| `Friendship.BefriendIdempotent` | src/main/java/ru/yandex/practicum/filmorate/service/UserService.java:52-53 | repeating the older addFriend changes nothing more |
| `Friendship.RepeatedRequestRefused` | src/main/java/ru/yandex/practicum/filmorate/service/impl/UserServiceImpl.java:58-60 | repeating the newer addFriend is a Validation failure |
| `Friendship.RevisionsOfAddFriend` | src/main/java/ru/yandex/practicum/filmorate/service/UserService.java:49-54 | on symmetric data the two revisions agree whenever the newer succeeds, and where it refuses a duplicate the older succeeds leaving the map unchanged |
| `Friendship.BefriendThenUnfriend` | src/main/java/ru/yandex/practicum/filmorate/service/impl/UserServiceImpl.java:54-72 | adding a friendship between non-friends and removing it restores the map |
| `Friendship.DeleteLeavesDanglingFriend` | src/main/java/ru/yandex/practicum/filmorate/service/impl/UserServiceImpl.java:47-52 | deletion does not cascade: deleting a user who has a friend leaves a friend id with no stored user |
| `UserServices.AddBothWays` | src/main/java/ru/yandex/practicum/filmorate/service/impl/UserServiceImpl.java:62-63 | the two in-place insertions leave the store equal to `Befriend` of the old map, the invariant kept |
| `UserServices.RemoveBothWays` | src/main/java/ru/yandex/practicum/filmorate/service/impl/UserServiceImpl.java:70-71 | the two in-place removals leave the store equal to `Unfriend` of the old map |
| `UserServices.ListFriends` | src/main/java/ru/yandex/practicum/filmorate/service/impl/UserServiceImpl.java:74-79 | NotFound for an absent user; otherwise success exactly when every friend id is stored, giving one stored user per friend id; else NotFound for an unstored friend id |
| `UserServices.ListCommonFriends` | src/main/java/ru/yandex/practicum/filmorate/service/impl/UserServiceImpl.java:81-89 | NotFound for the first absent user; otherwise the listed ids are exactly friends(a) ∩ friends(b), one stored user each, or NotFound for such an id that is not stored |
| `UserServices.SetOfDistinct` | src/main/java/ru/yandex/practicum/filmorate/service/impl/UserServiceImpl.java:85-86 | a listing without repeats of a set is as long as the set |
| `UserServices.ResolvedList` | src/main/java/ru/yandex/practicum/filmorate/service/impl/UserServiceImpl.java:76-78 | resolving a listing of a set gives one stored user per element, or NotFound for an unstored element |
| `UserServices.UserServiceImpl.constructor` | src/main/java/ru/yandex/practicum/filmorate/service/impl/UserServiceImpl.java:18-21 | the service keeps the storage it is given |
| `UserServices.UserServiceImpl.GetUser` | src/main/java/ru/yandex/practicum/filmorate/service/impl/UserServiceImpl.java:35-41 | NotFound naming the id exactly when storage answers null; otherwise the stored user |
| `UserServices.UserServiceImpl.UpdateUser` | src/main/java/ru/yandex/practicum/filmorate/service/impl/UserServiceImpl.java:27-33 | NotFound naming the id exactly when storage answers null, nothing changed; otherwise that record replaced |
| `UserServices.UserServiceImpl.DeleteUser` | src/main/java/ru/yandex/practicum/filmorate/service/impl/UserServiceImpl.java:47-52 | NotFound for an absent id before storage is touched; otherwise only that user is removed, as `DeleteGuarded` |
| `UserServices.UserServiceImpl.AddFriend` | src/main/java/ru/yandex/practicum/filmorate/service/impl/UserServiceImpl.java:54-64 | outcome and new user map are those of `AddFriendGuarded`; on failure nothing changes |
| `UserServices.UserServiceImpl.RemoveFriend` | src/main/java/ru/yandex/practicum/filmorate/service/impl/UserServiceImpl.java:66-72 | outcome and new user map are those of `Friendship.RemoveFriend`; not being friends is no error |
| `UserServices.UserServiceImpl.GetFriends` | src/main/java/ru/yandex/practicum/filmorate/service/impl/UserServiceImpl.java:74-79 | one stored user per friend id, or NotFound for the user or for a dangling friend id |
| `UserServices.UserServiceImpl.GetCommonFriends` | src/main/java/ru/yandex/practicum/filmorate/service/impl/UserServiceImpl.java:81-89 | the users returned have ids exactly friends(a) ∩ friends(b), one each |
| `UserServices.UserService.constructor` | src/main/java/ru/yandex/practicum/filmorate/service/UserService.java:16-19 | the older service keeps the storage it is given |
| `UserServices.UserService.GetUser` | src/main/java/ru/yandex/practicum/filmorate/service/UserService.java:33-39 | NotFound naming the id for an absent id; otherwise the stored user |
| `UserServices.UserService.UpdateUser` | src/main/java/ru/yandex/practicum/filmorate/service/UserService.java:25-31 | NotFound when storage refuses the id, nothing changed |
| `UserServices.UserService.DeleteUser` | src/main/java/ru/yandex/practicum/filmorate/service/UserService.java:45-47 | no existence check: the key is removed, an absent id is no error |
| `UserServices.UserService.AddFriend` | src/main/java/ru/yandex/practicum/filmorate/service/UserService.java:49-54 | outcome and new user map are those of `AddFriendUnguarded`: both users must exist, then each gains the other, with no duplicate check |
| `UserServices.UserService.RemoveFriend` | src/main/java/ru/yandex/practicum/filmorate/service/UserService.java:56-61 | removes both directions; succeeds even when the users were not friends |
| `UserServices.UserService.GetFriends` | src/main/java/ru/yandex/practicum/filmorate/service/UserService.java:63-68 | every friend id mapped through getUser, NotFound on a dangling id |
| `UserServices.UserService.GetCommonFriends` | src/main/java/ru/yandex/practicum/filmorate/service/UserService.java:70-78 | the users whose ids lie in both friend sets |
| `Messages.Digits` | src/main/java/ru/yandex/practicum/filmorate/service/impl/FilmServiceImpl.java:35 | an id is written with at least one decimal digit, a single digit exactly below 10 |
| `Messages.DigitsRoundTrip` | src/main/java/ru/yandex/practicum/filmorate/service/impl/FilmServiceImpl.java:35 | the decimal digits written for an id read back as that id |
| `Messages.Decimal` | src/main/java/ru/yandex/practicum/filmorate/service/impl/FilmServiceImpl.java:44 | an id in a message is written as a minus sign exactly for a negative id, followed by decimal digits only |
| `Messages.DecimalRoundTrip` | src/main/java/ru/yandex/practicum/filmorate/service/impl/FilmServiceImpl.java:44 | every id, negative ones included, reads back from its text, so distinct ids are written differently |
| `Messages.Message` | src/main/java/ru/yandex/practicum/filmorate/service/impl/FilmServiceImpl.java:35-89 | the text of each exception (also UserServiceImpl.java:30-59, UserController.java:41, Film.java:33); it ends in " не найден" exactly for a missing resource, the failures ErrorHandler answers with 404 |
| `Messages.MessageIdentifiesFailure` | src/main/java/ru/yandex/practicum/filmorate/service/impl/FilmServiceImpl.java:35-89 | no two failures, ids included, raise the same message text |
| `Messages.UnknownFilmMessage` | src/test/java/ru/yandex/practicum/filmorate/FilmControllerTest.java:105-111 | the failure of updating the unknown film 999 reads "Фильм с ID 999 не найден" |
| `Messages.UnknownUserMessage` | src/test/java/ru/yandex/practicum/filmorate/UserControllerTest.java:127 | the controller's unknown-user failure reads "Пользователь не найден" |

## Left out

- Object identity and aliasing. Java returns the stored objects themselves, so a caller who keeps a reference can change a stored film or user later. The model stores values, so only the core's own operations change the stores.
- Java `int` width. Ids, the counters and `count` are unbounded integers. After 2^31 - 1 creations `nextId++` would wrap to a negative id; the model does not capture this.
- `getPopularFilms` with a negative `count`: `Stream.limit` throws IllegalArgumentException, an unclassified failure. The model requires `count >= 0`.
- Tie order in `getPopularFilms`: the stable sort keeps the storage's iteration order, which `HashMap` does not specify. The model proves stability of the sort (`Popularity.SortIsStable`) and allows any listing order.
- The order of the lists `getFriends` and `getCommonFriends` return follows `HashSet` iteration and is left open.
- The service pass-throughs `addFilm`, `getAllFilms`, `createUser` and `getAllUsers` only call the storage. They are modelled by the storage methods. The unused private `getFilmOrThrow` is left out.
- The user store's own source is not part of this model. Its behaviour is modelled on the film store: a map, a counter, and a lookup that answers null for an absent id. Its `createUser` applies no default name.
- `User.java` has no `friends` field, although the services call `getFriends()`. The model's user carries a `friends` set.
- A new film's `likes` set starts empty, and the field is final (the set is changed, never replaced). The model holds likes as the set component of a Film value. A film reaching the store carries the likes of its payload, and `updateFilm` replaces them (see above).
- A null `releaseDate` makes `validate` throw a NullPointerException. The model's Film always has a date, because the adapter rejects a null date first (`@NotNull`).
- Jakarta bean-validation annotations (`@Email`, `@Pattern`, `@Size`, `@NotBlank`, `@Positive`, `@PastOrPresent`): they are enforced by a library that is not modelled, and `@PastOrPresent` reads the wall clock. `UserControllerModel.DefaultNameIsSettled` assumes a login that is not blank by `Character.isWhitespace`, which the annotations do not fully guarantee: `@NotBlank` trims only characters up to U+0020 and `\S` is ASCII-only, so a login of the ideographic space U+3000 passes both and leaves a blank name (`UserControllerModel.AnnotationsAdmitBlankLogin`).
- `FilmController` (HTTP adapter), `ErrorHandler` (exception-to-status mapping), logging, Spring injection and `ResponseEntity` shaping.
- Concurrency: the stores are plain `HashMap`s with no synchronisation, and the model is sequential.
