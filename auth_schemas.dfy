/** The request schemas of registration and login, and their field
    validators: a chain of guards per field, the first failing guard
    choosing the message, the value returned unchanged when every guard
    passes. pydantic runs the validator of every field and collects the
    failures in field order. */
module AuthSchemas {

  import opened Outcomes

  datatype Registration = Registration(fullName: string, username: string, password: string)

  datatype Login = Login(username: string, password: string)

  const MaxUsernameLength: nat := 20
  const MaxFullNameLength: nat := 50
  const MinPasswordLength: nat := 6

  const UsernameTooLong: string := "Username cannot be longer than 20 characters"
  const UsernameCharacters: string := "Username must contain only letters and digits (no special characters)"
  const FullNameTooLong: string := "Full name cannot be longer than 50 characters"
  const FullNameCharacters: string := "Full name must contain only letters (no digits or special characters)"
  const PasswordTooShort: string := "Password must be at least 6 characters long"
  const PasswordNoUpper: string := "Password must contain at least one uppercase letter"
  const PasswordNoLower: string := "Password must contain at least one lowercase letter"
  const PasswordNoDigit: string := "Password must contain at least one digit"

  // ----- character classes and the two regular-expression calls -----

  /** The bracket expressions the validators use: `[A-Za-z0-9]`,
      `[A-Za-z ]`, `[A-Z]`, `[a-z]` and `\d` (read as the ASCII digits). */
  datatype CharClass = UsernameChars | FullNameChars | UpperCase | LowerCase | Digit

  predicate InClass(k: CharClass, c: char)
  {
    match k
    case UsernameChars => 'A' <= c <= 'Z' || 'a' <= c <= 'z' || '0' <= c <= '9'
    case FullNameChars => 'A' <= c <= 'Z' || 'a' <= c <= 'z' || c == ' '
    case UpperCase => 'A' <= c <= 'Z'
    case LowerCase => 'a' <= c <= 'z'
    case Digit => '0' <= c <= '9'
  }

  predicate AllIn(s: string, k: CharClass)
  {
    forall i :: 0 <= i < |s| ==> InClass(k, s[i])
  }

  /** The length of the longest prefix of `s` inside the class: what the
      greedy `[...]+` consumes. */
  function Run(s: string, k: CharClass): (n: nat)
    ensures n <= |s|
    ensures AllIn(s[..n], k)
    ensures n < |s| ==> !InClass(k, s[n])
  {
    if s == [] || !InClass(k, s[0]) then 0
    else
      var n := Run(s[1..], k);
      assert s[..1 + n] == [s[0]] + s[1..][..n];
      1 + n
  }

  /** `re.match(r"^[...]+$", s)`: the greedy run must be non-empty, and `$`
      must hold where it stops: at the end of the string, or just before a
      final newline. */
  predicate RegexMatch(s: string, k: CharClass)
  {
    var n := Run(s, k);
    n >= 1 && (n == |s| || (n == |s| - 1 && s[n] == '\n'))
  }

  /** What the anchored pattern accepts, stated on the string: one or more
      characters of the class, optionally followed by one newline. */
  predicate WholeMatch(s: string, k: CharClass)
  {
    || (|s| >= 1 && AllIn(s, k))
    || (|s| >= 2 && s[|s| - 1] == '\n' && AllIn(s[..|s| - 1], k))
  }

  /** The run stops at the first character outside the class: when the
      first `m` characters are in the class and the next one is not (or
      there is none), the run is `m` long. */
  lemma {:induction false} RunStopsAt(s: string, k: CharClass, m: nat)
    requires m <= |s| && AllIn(s[..m], k)
    requires m < |s| ==> !InClass(k, s[m])
    ensures Run(s, k) == m
    decreases m
  {
    if m > 0 {
      assert InClass(k, s[..m][0]);
      assert s[1..][..m - 1] == s[..m][1..];
      RunStopsAt(s[1..], k, m - 1);
    }
  }

  /** The greedy matcher accepts exactly the strings described above, for
      every class the validators use (none of them holds a newline). */
  lemma MatchAgrees(s: string, k: CharClass)
    ensures RegexMatch(s, k) <==> WholeMatch(s, k)
  {
    if RegexMatch(s, k) {
      var n := Run(s, k);
      if n == |s| { assert s[..n] == s; }
      else { assert s[..|s| - 1] == s[..n]; }
    }
    if |s| >= 1 && AllIn(s, k) {
      assert s[..|s|] == s;
      RunStopsAt(s, k, |s|);
    } else if |s| >= 2 && s[|s| - 1] == '\n' && AllIn(s[..|s| - 1], k) {
      RunStopsAt(s, k, |s| - 1);
    }
  }

  /** `re.search(pattern, s)` for a one-character pattern: the leftmost
      position holding a character of the class. */
  function Search(s: string, k: CharClass): (r: Option<nat>)
    ensures r.Some? <==> exists i :: 0 <= i < |s| && InClass(k, s[i])
    ensures r.Some? ==> r.value < |s| && InClass(k, s[r.value])
    ensures r.Some? ==> forall j :: 0 <= j < r.value ==> !InClass(k, s[j])
  {
    if s == [] then None
    else if InClass(k, s[0]) then Some(0)
    else
      match Search(s[1..], k)
      case None =>
        assert forall i :: 1 <= i < |s| ==> s[i] == s[1..][i - 1];
        None
      case Some(j) =>
        assert forall i :: 1 <= i <= j ==> s[i] == s[1..][i - 1];
        Some(1 + j)
  }

  predicate Occurs(s: string, k: CharClass)
  {
    exists i :: 0 <= i < |s| && InClass(k, s[i])
  }

  // ----- registration -----

  /** `validate_username`: over 20 characters fails on length first;
      otherwise the value must match `^[A-Za-z0-9]+$`. */
  function ValidateUsername(value: string): (r: Result<string, string>)
    ensures r.Ok? <==> |value| <= MaxUsernameLength && WholeMatch(value, UsernameChars)
    ensures r.Ok? ==> r.value == value
    ensures |value| > MaxUsernameLength ==> r == Err(UsernameTooLong)
    ensures |value| <= MaxUsernameLength && !WholeMatch(value, UsernameChars) ==> r == Err(UsernameCharacters)
  {
    MatchAgrees(value, UsernameChars);
    if |value| > MaxUsernameLength then Err(UsernameTooLong)
    else if !RegexMatch(value, UsernameChars) then Err(UsernameCharacters)
    else Ok(value)
  }

  /** `validate_full_name`: over 50 characters fails on length first;
      otherwise the value must match `^[A-Za-z ]+$`. */
  function ValidateFullName(value: string): (r: Result<string, string>)
    ensures r.Ok? <==> |value| <= MaxFullNameLength && WholeMatch(value, FullNameChars)
    ensures r.Ok? ==> r.value == value
    ensures |value| > MaxFullNameLength ==> r == Err(FullNameTooLong)
    ensures |value| <= MaxFullNameLength && !WholeMatch(value, FullNameChars) ==> r == Err(FullNameCharacters)
  {
    MatchAgrees(value, FullNameChars);
    if |value| > MaxFullNameLength then Err(FullNameTooLong)
    else if !RegexMatch(value, FullNameChars) then Err(FullNameCharacters)
    else Ok(value)
  }

  /** `validate_password`: at least six characters, then an upper-case
      letter, then a lower-case letter, then a digit, each checked in turn;
      the first one missing names the error. */
  function ValidatePassword(value: string): (r: Result<string, string>)
    ensures r.Ok? <==>
      |value| >= MinPasswordLength && Occurs(value, UpperCase) && Occurs(value, LowerCase) && Occurs(value, Digit)
    ensures r.Ok? ==> r.value == value
    ensures |value| < MinPasswordLength ==> r == Err(PasswordTooShort)
    ensures |value| >= MinPasswordLength && !Occurs(value, UpperCase) ==> r == Err(PasswordNoUpper)
    ensures (|value| >= MinPasswordLength && Occurs(value, UpperCase) && !Occurs(value, LowerCase))
            ==> r == Err(PasswordNoLower)
    ensures (|value| >= MinPasswordLength && Occurs(value, UpperCase) && Occurs(value, LowerCase)
             && !Occurs(value, Digit))
            ==> r == Err(PasswordNoDigit)
  {
    if |value| < MinPasswordLength then Err(PasswordTooShort)
    else if Search(value, UpperCase).None? then Err(PasswordNoUpper)
    else if Search(value, LowerCase).None? then Err(PasswordNoLower)
    else if Search(value, Digit).None? then Err(PasswordNoDigit)
    else Ok(value)
  }

  /** One field's validator outcome as pydantic reports it: no error, or
      one error located at the field. */
  function Located(field: string, v: Result<string, string>): (errs: seq<FieldError>)
    ensures errs == [] <==> v.Ok?
    ensures v.Err? ==> errs == [FieldError(field, v.error)]
  {
    if v.Ok? then [] else [FieldError(field, v.error)]
  }

  /** `e` is the failure of validator outcome `v`, reported at `field`. */
  predicate ReportedAt(e: FieldError, field: string, v: Result<string, string>)
  {
    e.field == field && v == Err(e.message)
  }

  /** The place of a field in the Registration model's declaration order. */
  function RegistrationRank(field: string): nat
  {
    if field == "full_name" then 0 else if field == "username" then 1 else 2
  }

  /** The errors of a registration request, in field order: `full_name`,
      `username`, `password`. Each failing validator contributes its own
      message at its own field, and nothing else is reported. */
  function RegistrationErrors(reg: Registration): (errs: seq<FieldError>)
    ensures errs == [] <==>
      && ValidateFullName(reg.fullName).Ok?
      && ValidateUsername(reg.username).Ok?
      && ValidatePassword(reg.password).Ok?
    ensures |errs| <= 3
    ensures forall i :: 0 <= i < |errs| ==> errs[i].field in {"full_name", "username", "password"}
    ensures forall e :: e in errs <==>
      || ReportedAt(e, "full_name", ValidateFullName(reg.fullName))
      || ReportedAt(e, "username", ValidateUsername(reg.username))
      || ReportedAt(e, "password", ValidatePassword(reg.password))
    ensures forall i, j :: 0 <= i < j < |errs| ==> RegistrationRank(errs[i].field) < RegistrationRank(errs[j].field)
  {
    var a := Located("full_name", ValidateFullName(reg.fullName));
    var b := Located("username", ValidateUsername(reg.username));
    var c := Located("password", ValidatePassword(reg.password));
    assert forall e :: e in a + b + c <==> e in a || e in b || e in c;
    a + b + c
  }

  /** Building a Registration: accepted, unchanged, exactly when every
      field validator accepts. */
  function ValidateRegistration(reg: Registration): (r: Result<Registration, seq<FieldError>>)
    ensures r.Ok? <==>
      && |reg.fullName| <= MaxFullNameLength && WholeMatch(reg.fullName, FullNameChars)
      && |reg.username| <= MaxUsernameLength && WholeMatch(reg.username, UsernameChars)
      && |reg.password| >= MinPasswordLength
      && Occurs(reg.password, UpperCase) && Occurs(reg.password, LowerCase) && Occurs(reg.password, Digit)
    ensures r.Ok? ==> r.value == reg
    ensures r.Err? ==> r.error == RegistrationErrors(reg) && r.error != []
  {
    var errs := RegistrationErrors(reg);
    if errs == [] then Ok(reg) else Err(errs)
  }

  /** `$` also matches before one final newline, so a valid username or
      full name followed by a single newline is accepted as it is, newline
      included; two newlines are refused. */
  lemma TrailingNewlineAccepted(name: string, k: CharClass)
    requires name != [] && AllIn(name, k)
    ensures WholeMatch(name + "\n", k)
    ensures !WholeMatch(name + "\n\n", k)
  {
    assert (name + "\n")[..|name|] == name;
    var twice := name + "\n\n";
    assert twice[|twice| - 2] == '\n';
    assert !InClass(k, twice[..|twice| - 1][|twice| - 2]);
  }

  /** A concrete pair: "alice" and "alice\n" are valid usernames. */
  lemma UsernameExamples()
    ensures ValidateUsername("alice").Ok?
    ensures ValidateUsername("alice\n") == Ok("alice\n")
    ensures ValidateUsername("alice_1") == Err(UsernameCharacters)
    ensures ValidateUsername("abcdefghijklmnopqrstu") == Err(UsernameTooLong)
  {
    TrailingNewlineAccepted("alice", UsernameChars);
    assert !InClass(UsernameChars, "alice_1"[5]);
    assert !InClass(UsernameChars, "alice_1"[..6][5]);
  }

  // ----- login -----

  /** The characters Python's `str.strip()` removes: those for which
      `str.isspace()` holds. */
  predicate Whitespace(c: char)
  {
    var n := c as int;
    || 0x09 <= n <= 0x0D || 0x1C <= n <= 0x20 || n == 0x85 || n == 0xA0 || n == 0x1680
    || 0x2000 <= n <= 0x200A || n == 0x2028 || n == 0x2029 || n == 0x202F || n == 0x205F || n == 0x3000
  }

  /** `s.lstrip()`. */
  function StripLeading(s: string): (r: string)
    ensures |r| <= |s| && r == s[|s| - |r|..]
    ensures forall i :: 0 <= i < |s| - |r| ==> Whitespace(s[i])
    ensures r != [] ==> !Whitespace(r[0])
  {
    if s == [] || !Whitespace(s[0]) then s
    else
      var r := StripLeading(s[1..]);
      assert forall i :: 1 <= i < |s| - |r| ==> s[i] == s[1..][i - 1];
      r
  }

  /** `s.rstrip()`. */
  function StripTrailing(s: string): (r: string)
    ensures |r| <= |s| && r == s[..|r|]
    ensures forall i :: |r| <= i < |s| ==> Whitespace(s[i])
    ensures r != [] ==> !Whitespace(r[|r| - 1])
  {
    if s == [] || !Whitespace(s[|s| - 1]) then s
    else
      var r := StripTrailing(s[..|s| - 1]);
      assert forall i :: |r| <= i < |s| - 1 ==> s[i] == s[..|s| - 1][i];
      r
  }

  /** `r` is `s` with exactly the whitespace before position `i` and after
      `r` taken off. */
  predicate StrippedAt(s: string, r: string, i: nat)
  {
    && i + |r| <= |s| && r == s[i..i + |r|]
    && (forall j :: 0 <= j < i ==> Whitespace(s[j]))
    && (forall j :: i + |r| <= j < |s| ==> Whitespace(s[j]))
  }

  /** `s.strip()`: a contiguous piece of `s` with only whitespace before and
      after it, neither starting nor ending with whitespace. */
  function Strip(s: string): (r: string)
    ensures exists i :: StrippedAt(s, r, i)
    ensures r != [] ==> !Whitespace(r[0]) && !Whitespace(r[|r| - 1])
  {
    StripLeadingThenTrailing(s);
    StripTrailing(StripLeading(s))
  }

  /** Taking whitespace off the front and then off the back leaves a piece
      of the value at the point where the front whitespace ended. */
  lemma StripLeadingThenTrailing(s: string)
    ensures StrippedAt(s, StripTrailing(StripLeading(s)), |s| - |StripLeading(s)|)
  {
    var left := StripLeading(s);
    StrippedPiece(s, left, StripTrailing(left));
  }

  lemma StrippedPiece(s: string, left: string, r: string)
    requires |left| <= |s| && left == s[|s| - |left|..]
    requires forall j :: 0 <= j < |s| - |left| ==> Whitespace(s[j])
    requires |r| <= |left| && r == left[..|r|]
    requires forall j :: |r| <= j < |left| ==> Whitespace(left[j])
    ensures StrippedAt(s, r, |s| - |left|)
  {
    var i := |s| - |left|;
    assert r == s[i..i + |r|];
    forall j | i + |r| <= j < |s| ensures Whitespace(s[j]) {
      assert s[j] == left[j - i];
    }
  }

  /** A value strips to nothing exactly when it is all whitespace (the
      empty value included). */
  lemma StripEmptyIffBlank(s: string)
    ensures Strip(s) == [] <==> forall i :: 0 <= i < |s| ==> Whitespace(s[i])
  {
    var r := Strip(s);
    var i: nat :| StrippedAt(s, r, i);
    if r != [] {
      assert s[i] == r[0];
    } else {
      forall j | 0 <= j < |s| ensures Whitespace(s[j]) {
        if j >= i { assert i + |r| <= j; }
      }
    }
  }

  /** The message of `not_empty` for `field`. */
  function BlankMessage(field: string): string
  {
    field + " cannot be empty or contain only spaces"
  }

  /** `Login.not_empty`: a value that strips to nothing fails, naming its
      field; anything else is returned unchanged. */
  function NotEmpty(field: string, value: string): (r: Result<string, string>)
    ensures r.Ok? <==> exists i :: 0 <= i < |value| && !Whitespace(value[i])
    ensures r.Ok? ==> r.value == value
    ensures r.Err? ==> r.error == BlankMessage(field)
  {
    StripEmptyIffBlank(value);
    if Strip(value) == [] then Err(BlankMessage(field)) else Ok(value)
  }

  /** The errors of a login request: `username`, then `password`, each
      blank field reported at itself with its own message. */
  function LoginErrors(l: Login): (errs: seq<FieldError>)
    ensures errs == [] <==> NotEmpty("username", l.username).Ok? && NotEmpty("password", l.password).Ok?
    ensures l.username == "" ==> errs[0] == FieldError("username", BlankMessage("username"))
    ensures forall e :: e in errs <==>
      || ReportedAt(e, "username", NotEmpty("username", l.username))
      || ReportedAt(e, "password", NotEmpty("password", l.password))
    ensures NotEmpty("username", l.username).Err? ==> errs[0] == FieldError("username", BlankMessage("username"))
    ensures NotEmpty("password", l.password).Err? ==> errs[|errs| - 1] == FieldError("password", BlankMessage("password"))
    ensures |errs| <= 2 && (|errs| == 2 ==> errs[0].field == "username" && errs[1].field == "password")
  {
    var u, p := NotEmpty("username", l.username), NotEmpty("password", l.password);
    LocatedPair("username", u, "password", p);
    Located("username", u) + Located("password", p)
  }

  /** Two fields' outcomes side by side: the failures, each at its own
      field, the first field's first. */
  lemma LocatedPair(f: string, u: Result<string, string>, g: string, v: Result<string, string>)
    ensures var errs := Located(f, u) + Located(g, v);
      && (forall e :: e in errs <==> ReportedAt(e, f, u) || ReportedAt(e, g, v))
      && (u.Err? ==> errs[0] == FieldError(f, u.error))
      && (v.Err? ==> errs[|errs| - 1] == FieldError(g, v.error))
      && |errs| <= 2 && (|errs| == 2 ==> errs[0].field == f && errs[1].field == g)
  {
    var a, b := Located(f, u), Located(g, v);
    assert forall e :: e in a + b <==> e in a || e in b;
  }

  /** Building a Login: accepted, unchanged, exactly when each field holds
      a character that is not whitespace; a password of spaces and tabs is
      refused, one with a single letter among them is not. */
  function ValidateLogin(l: Login): (r: Result<Login, seq<FieldError>>)
    ensures r.Ok? <==>
      && (exists i :: 0 <= i < |l.username| && !Whitespace(l.username[i]))
      && (exists i :: 0 <= i < |l.password| && !Whitespace(l.password[i]))
    ensures r.Ok? ==> r.value == l
    ensures r.Err? ==> r.error == LoginErrors(l) && r.error != []
  {
    var errs := LoginErrors(l);
    if errs == [] then Ok(l) else Err(errs)
  }
}
