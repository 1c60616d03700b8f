/** The User record (model/User.java, plus the friend set the services use). */
module UserModel {
  import opened Results
  import opened Calendar

  /** A user. `name` and `birthday` may be absent (null in the source);
      `friends` holds the ids of the user's friends. */
  datatype User = User(
    id: int,
    email: string,
    login: string,
    name: Option<string>,
    birthday: Option<Date>,
    friends: set<int>)
}
