/** The messages the source's exceptions carry, rendered from the failure
    values. Ids appear in decimal, as Java's string concatenation writes an
    int. */
module Messages {
  import opened Results

  /** The decimal digits of a natural number, most significant first. */
  function Digits(n: nat): (s: string)
    ensures |s| >= 1 && forall i | 0 <= i < |s| :: '0' <= s[i] <= '9'
    ensures n < 10 <==> |s| == 1
  {
    if n < 10 then [('0' as int + n) as char]
    else Digits(n / 10) + [('0' as int + n % 10) as char]
  }

  /** The value of a string of decimal digits. */
  function DigitsValue(s: string): nat
    requires forall i | 0 <= i < |s| :: '0' <= s[i] <= '9'
  {
    if s == [] then 0 else 10 * DigitsValue(s[..|s| - 1]) + (s[|s| - 1] as int - '0' as int)
  }

  /** Digits writes a number that reads back as the same number. */
  lemma {:induction false} DigitsRoundTrip(n: nat)
    ensures DigitsValue(Digits(n)) == n
  {
    if n >= 10 {
      DigitsRoundTrip(n / 10);
      var s := Digits(n);
      assert s[..|s| - 1] == Digits(n / 10);
    }
  }

  /** Integer.toString: a minus sign before the digits of a negative number.
      The text starts with a minus sign exactly when the number is negative,
      and every other character is a digit. */
  function Decimal(n: int): (s: string)
    ensures |s| >= 1 && (s[0] == '-' <==> n < 0)
    ensures forall i | 0 < i < |s| :: '0' <= s[i] <= '9'
  {
    if n < 0 then "-" + Digits(-n) else Digits(n)
  }

  /** Integer.parseInt on what Decimal writes. */
  function ParseDecimal(s: string): int
    requires |s| >= 1 && forall i | 0 < i < |s| :: '0' <= s[i] <= '9'
    requires s[0] != '-' ==> '0' <= s[0] <= '9'
  {
    if s[0] == '-' then 0 - DigitsValue(s[1..]) as int else DigitsValue(s)
  }

  /** Every id, negative ones included, reads back from its text, so no two
      ids are written alike. */
  lemma DecimalRoundTrip(n: int)
    ensures ParseDecimal(Decimal(n)) == n
  {
    if n < 0 {
      DigitsRoundTrip(-n);
      assert Decimal(n)[1..] == Digits(-n);
    } else {
      DigitsRoundTrip(n);
    }
  }

  /** The ending of every message of a ResourceNotFoundException. */
  const NotFoundEnding := " не найден"

  predicate EndsWith(s: string, suffix: string) {
    |suffix| <= |s| && s[|s| - |suffix|..] == suffix
  }

  /** What a ResourceNotFoundException names as missing. */
  function Subject(x: Missing): string {
    match x
    case FilmWithId(id) => "Фильм с ID " + Decimal(id)
    case UserWithId(id) => "Пользователь с ID " + Decimal(id)
    case LikeFrom(id) => "Лайк от пользователя " + Decimal(id)
    case SomeUser => "Пользователь"
  }

  /** The text of a ValidationException; none ends like a not-found one. */
  function Refusal(r: Reason): (m: string)
    ensures |m| > 0 && m[|m| - 1] != 'н'
  {
    match r
    case AlreadyLiked => "Пользователь уже поставил лайк этому фильму"
    case AlreadyFriends => "Пользователи уже являются друзьями"
    case ReleaseTooEarly => "Дата релиза не может быть " + "раньше 28 декабря 1895 года"
  }

  /** The text of the exception each failure raises. A message ends in
      " не найден" exactly when the failure is a missing resource. */
  function Message(f: Failure): (m: string)
    ensures f.NotFound? <==> EndsWith(m, NotFoundEnding)
  {
    match f
    case NotFound(x) => Subject(x) + NotFoundEnding
    case Validation(r) =>
      assert NotFoundEnding[|NotFoundEnding| - 1] == 'н';
      Refusal(r)
  }

  /** Id 999 is written "999". */
  lemma DecimalOf999()
    ensures Decimal(999) == "999"
  {
    assert Digits(99) == Digits(9) + "9" == "99";
    assert Digits(999) == Digits(99) + "9" == "999";
  }

  /** The message the film tests expect for an update of the unknown id 999. */
  lemma UnknownFilmMessage()
    ensures Message(NotFound(FilmWithId(999))) == "Фильм с ID 999 не найден"
  {
    DecimalOf999();
  }

  /** The message the user controller tests expect for an unknown user. */
  lemma UnknownUserMessage()
    ensures Message(NotFound(SomeUser)) == "Пользователь не найден"
  {
  }

  /** A message tells its failure apart from every other: no two failures,
      ids included, are reported with the same text. */
  lemma MessageIdentifiesFailure(f: Failure, g: Failure)
    requires Message(f) == Message(g)
    ensures f == g
  {
    if f.NotFound? && g.NotFound? {
      SameStart(Subject(f.missing), Subject(g.missing), NotFoundEnding);
      SubjectIdentifies(f.missing, g.missing);
    } else if f.Validation? && g.Validation? {
      assert |Refusal(AlreadyLiked)| == 43;
      assert |Refusal(AlreadyFriends)| == 34;
      assert |Refusal(ReleaseTooEarly)| == 53;
    }
  }

  /** The first character, and whether the subject is the bare word
      "Пользователь", tell the kinds of missing resource apart. */
  lemma SubjectMarks(x: Missing)
    ensures |Subject(x)| >= 12
    ensures Subject(x)[0] == match x
      case FilmWithId(_) => 'Ф'
      case LikeFrom(_) => 'Л'
      case _ => 'П'
    ensures x.SomeUser? ==> |Subject(x)| == 12
    ensures x.UserWithId? ==> |Subject(x)| > 12
  {
  }

  /** Different missing resources are named differently. */
  lemma SubjectIdentifies(x: Missing, y: Missing)
    requires Subject(x) == Subject(y)
    ensures x == y
  {
    SubjectMarks(x);
    SubjectMarks(y);
    match x
    case FilmWithId(a) => SameIdText("Фильм с ID ", a, y.id);
    case UserWithId(a) => SameIdText("Пользователь с ID ", a, y.id);
    case LikeFrom(a) => SameIdText("Лайк от пользователя ", a, y.userId);
    case SomeUser =>
  }

  /** Two subjects with the same opening name the same id. */
  lemma SameIdText(opening: string, a: int, b: int)
    requires opening + Decimal(a) == opening + Decimal(b)
    ensures a == b
  {
    var s := opening + Decimal(a);
    assert Decimal(a) == s[|opening|..] == Decimal(b);
    DecimalRoundTrip(a);
    DecimalRoundTrip(b);
  }

  /** Texts with the same ending are equal once it is cut off. */
  lemma SameStart(x: string, y: string, ending: string)
    requires x + ending == y + ending
    ensures x == y
  {
    var s := x + ending;
    assert x == s[..|x|];
    assert y == s[..|y|];
  }
}
