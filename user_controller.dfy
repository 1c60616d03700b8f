/** The user controller (controller/UserController.java), which keeps its
    own map of users and its own id counter, and fills in a blank name. */
module UserControllerModel {
  import opened Results
  import opened UserModel
  import Enumeration

  /** The Unicode space separators (general category Zs). */
  predicate SpaceSeparator(c: char) {
    c == ' ' || c == '\U{00A0}' || c == '\U{1680}' || ('\U{2000}' <= c <= '\U{200A}')
      || c == '\U{202F}' || c == '\U{205F}' || c == '\U{3000}'
  }

  /** Character.isWhitespace: a space, line or paragraph separator that is
      not a no-break space, or one of the controls tab, line feed, vertical
      tab, form feed, carriage return and the four information separators. */
  predicate IsWhitespace(c: char): (r: bool)
    ensures r <==>
      || ((SpaceSeparator(c) || c == '\U{2028}' || c == '\U{2029}')
          && c != '\U{00A0}' && c != '\U{2007}' && c != '\U{202F}')
      || ('\t' <= c <= '\r') || ('\U{001C}' <= c <= '\U{001F}')
  {
    var n := c as int;
    || (0x09 <= n <= 0x0D) || (0x1C <= n <= 0x20)
    || n == 0x1680 || (0x2000 <= n <= 0x2006) || (0x2008 <= n <= 0x200A)
    || n == 0x2028 || n == 0x2029 || n == 0x205F || n == 0x3000
  }

  /** The index of the first character of `s` that is not whitespace, or
      |s| when there is none. */
  function FirstNonWhitespace(s: string): (i: nat)
    ensures i <= |s| && (i < |s| ==> !IsWhitespace(s[i]))
    ensures forall k | 0 <= k < i :: IsWhitespace(s[k])
  {
    if s == [] || !IsWhitespace(s[0]) then 0 else 1 + FirstNonWhitespace(s[1..])
  }

  /** String.isBlank: no character that is not whitespace, that is, empty
      or whitespace only. */
  predicate IsBlank(s: string): (r: bool)
    ensures r <==> forall i | 0 <= i < |s| :: IsWhitespace(s[i])
  {
    FirstNonWhitespace(s) == |s|
  }

  /** A name that is absent or blank. */
  predicate NameMissing(name: Option<string>) {
    name.None? || IsBlank(name.value)
  }

  /** The default-name rule of createUser: a missing or blank name becomes
      the login; every other field, and a non-blank name, is kept. */
  function WithDefaultName(u: User): (v: User)
    ensures v == u.(name := v.name)
    ensures NameMissing(u.name) ==> v.name == Some(u.login)
    ensures !NameMissing(u.name) ==> v.name == u.name
  {
    if NameMissing(u.name) then u.(name := Some(u.login)) else u
  }

  /** With a login that is not blank by Character.isWhitespace, the rule
      leaves a name that is present and not blank, and applying it again
      changes nothing. */
  lemma DefaultNameIsSettled(u: User)
    requires !IsBlank(u.login)
    ensures !NameMissing(WithDefaultName(u).name)
    ensures WithDefaultName(WithDefaultName(u)) == WithDefaultName(u)
  {
  }

  /** The login's @NotBlank: something is left after String.trim, which
      strips only the characters up to U+0020. */
  predicate NotBlankAfterTrim(s: string) {
    exists i | 0 <= i < |s| :: s[i] > ' '
  }

  /** The login's @Pattern("\\S+"): one or more characters, none of them
      one of the six ASCII whitespace characters of Java's `\s`. */
  predicate NoAsciiWhitespace(s: string) {
    |s| >= 1 && forall i | 0 <= i < |s| :: !(s[i] == ' ' || '\t' <= s[i] <= '\r')
  }

  /** The annotations on the login do not rule out a blank one: a login
      made of the ideographic space U+3000 passes both, and a user created
      with it and no name is stored with a name that isBlank calls blank. */
  lemma AnnotationsAdmitBlankLogin(u: User)
    requires u.login == "\U{3000}" && u.name.None?
    ensures NotBlankAfterTrim(u.login) && NoAsciiWhitespace(u.login)
    ensures IsBlank(u.login) && NameMissing(WithDefaultName(u).name)
  {
    assert u.login[0] > ' ';
  }

  class UserController {
    var users: map<int, User>
    var nextId: int

    /** Every user is stored under its own id; stored ids lie in [1, nextId). */
    ghost predicate Valid()
      reads this
    {
      && 1 <= nextId
      && forall id | id in users :: users[id].id == id && 1 <= id < nextId
    }

    constructor ()
      ensures Valid() && users == map[] && nextId == 1
    {
      users := map[];
      nextId := 1;
    }

    /** Applies the default-name rule, issues the next id and stores the
        user: the map gains exactly one entry, under an id above all others. */
    method CreateUser(user: User) returns (created: User)
      requires Valid()
      modifies this
      ensures Valid()
      ensures created == WithDefaultName(user).(id := old(nextId))
      ensures users == old(users)[created.id := created] && nextId == old(nextId) + 1
      ensures created.id !in old(users) && |users| == |old(users)| + 1
      ensures forall id | id in old(users) :: id < created.id
    {
      var named := WithDefaultName(user);
      created := named.(id := nextId);
      nextId := nextId + 1;
      users := users[created.id := created];
    }

    /** Replaces the stored record under the user's id; an absent id is
        NotFound with no id in the message, and nothing changes. */
    method UpdateUser(user: User) returns (r: Result<User>)
      requires Valid()
      modifies this
      ensures Valid() && nextId == old(nextId) && users.Keys == old(users.Keys)
      ensures user.id in old(users) ==> r == Ok(user) && users == old(users)[user.id := user]
      ensures user.id !in old(users) ==> r == Err(NotFound(SomeUser)) && users == old(users)
    {
      if user.id !in users {
        return Err(NotFound(SomeUser));
      }
      users := users[user.id := user];
      return Ok(user);
    }

    /** An immutable copy of exactly the stored users, each once. */
    method GetAllUsers() returns (r: seq<User>)
      requires Valid()
      ensures |r| == |users|
      ensures forall i | 0 <= i < |r| :: r[i].id in users && users[r[i].id] == r[i]
      ensures forall id | id in users :: users[id] in r
    {
      var ids := Enumeration.Enumerate(users.Keys);
      assert |users.Keys| == |users|;
      r := Enumeration.ValuesAt(users, ids);
      forall i | 0 <= i < |r| ensures r[i].id == ids[i] {
        assert ids[i] in users;
      }
      forall id | id in users ensures users[id] in r {
        var i :| 0 <= i < |ids| && ids[i] == id;
        assert r[i] == users[id];
      }
    }
  }
}
