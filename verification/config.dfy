/** The configuration loader of config.js: three environment variables are
    read and validated in the fixed order user, repository, PR number; the
    raw strings come back unchanged, or the first failing check is thrown.

    The environment is an explicit map; a key the map lacks reads as
    JavaScript's `undefined`. */
module Config {
  import opened Wrappers
  import opened Strings
  import opened CharClass

  const UserKey: string := "GITHUB_USER"
  const RepositoryKey: string := "GITHUB_REPOSITORY"
  const NumberKey: string := "GITHUB_PR_NUMBER"

  type Env = map<string, string>

  datatype Configuration = Configuration(user: string, repository: string, number: string)

  /** The errors the loader can throw. `UndeclaredKey` carries the text that
      is interpolated for the key; `MatchOnUndefined` is the TypeError thrown
      by calling `match` on an undefined value, whose message names no key. */
  datatype ConfigError =
    | UndeclaredKey(shown: string)
    | MatchOnUndefined
    | InvalidUser(value: string)
    | InvalidRepository(value: string)
    | InvalidNumber(value: string)

  function Lookup(env: Env, key: string): (v: Option<string>)
    ensures v.Some? <==> key in env
    ensures v.Some? ==> v.value == env[key]
  {
    if key in env then Some(env[key]) else None
  }

  /** What a template literal (or `String(...)`) makes of a value. */
  function Display(v: Option<string>): string {
    match v
    case None => "undefined"
    case Some(s) => s
  }

  /** The text of the thrown error. A validation message opens with the
      rejected value in quotes; the "not declared" message quotes what
      stood for the key. */
  function Message(e: ConfigError): (m: string)
    ensures e.InvalidUser? || e.InvalidRepository? || e.InvalidNumber? ==> OccursAt(Quote(e.value), m, 0)
    ensures e.UndeclaredKey? ==> OccursAt(Quote(e.shown), m, |"input key "|)
  {
    match e
    case UndeclaredKey(shown) =>
      OccursInConcat("input key ", Quote(shown), " was not declared");
      "input key " + Quote(shown) + " was not declared"
    case MatchOnUndefined => "Cannot read properties of undefined (reading 'match')"
    case InvalidUser(v) => Quote(v) + " could not be interpreted as a valid Github username"
    case InvalidRepository(v) => Quote(v) + " could not be interpreted as a valid Github repository"
    case InvalidNumber(v) => Quote(v) + " could not be interpreted as a valid PR number"
  }

  function Quote(s: string): string {
    "\"" + s + "\""
  }

  // ---------------------------------------------------------------------
  // The two character classes, and what they accept

  /** `[a-zA-Z\d-]` */
  const UsernameClass: Class := [Range('a', 'z'), Range('A', 'Z'), Range('0', '9'), Single('-')]

  /** `[a-zA-Z\d-_]`: a range cannot start at the escape `\d`, so the hyphen
      after it is a literal and `_` is a literal too. */
  const RepositoryClass: Class :=
    [Range('a', 'z'), Range('A', 'Z'), Range('0', '9'), Single('-'), Single('_')]

  predicate UsernameChar(c: char) {
    IsAsciiLetter(c) || IsDigit(c) || c == '-'
  }

  predicate RepositoryChar(c: char) {
    IsAsciiLetter(c) || IsDigit(c) || c == '-' || c == '_'
  }

  predicate ValidUsername(s: string) {
    0 < |s| && forall i | 0 <= i < |s| :: UsernameChar(s[i])
  }

  predicate ValidRepository(s: string) {
    0 < |s| && forall i | 0 <= i < |s| :: RepositoryChar(s[i])
  }

  lemma UsernameClassIsUsernameChar(c: char)
    ensures InClass(UsernameClass, c) <==> UsernameChar(c)
  {
    assert InTerm(UsernameClass[0], c) <==> 'a' <= c <= 'z';
    assert InTerm(UsernameClass[1], c) <==> 'A' <= c <= 'Z';
    assert InTerm(UsernameClass[2], c) <==> IsDigit(c);
    assert InTerm(UsernameClass[3], c) <==> c == '-';
  }

  lemma RepositoryClassIsRepositoryChar(c: char)
    ensures InClass(RepositoryClass, c) <==> RepositoryChar(c)
  {
    assert InTerm(RepositoryClass[0], c) <==> 'a' <= c <= 'z';
    assert InTerm(RepositoryClass[1], c) <==> 'A' <= c <= 'Z';
    assert InTerm(RepositoryClass[2], c) <==> IsDigit(c);
    assert InTerm(RepositoryClass[3], c) <==> c == '-';
    assert InTerm(RepositoryClass[4], c) <==> c == '_';
  }

  /** The username regular expression accepts exactly the valid usernames. */
  lemma UsernameRegexMatches(s: string)
    ensures FullMatchPlus(UsernameClass, s) <==> ValidUsername(s)
  {
    forall i | 0 <= i < |s| {
      UsernameClassIsUsernameChar(s[i]);
    }
  }

  /** The repository regular expression accepts exactly the valid names. */
  lemma RepositoryRegexMatches(s: string)
    ensures FullMatchPlus(RepositoryClass, s) <==> ValidRepository(s)
  {
    forall i | 0 <= i < |s| {
      RepositoryClassIsRepositoryChar(s[i]);
    }
  }

  // ---------------------------------------------------------------------
  // The PR number check: parseFloat, then isNaN / Number.isInteger / < 1

  /** The smallest integer that parseFloat rounds to Infinity: half-way
      between the largest finite double, 2^1024 - 2^971, and 2^1024. */
  const FloatOverflow: int := Pow2(1024) - Pow2(970)

  lemma FloatOverflowLarge()
    ensures Pow2(970) <= FloatOverflow
  {
    Pow2Add(970, 54);
    Pow2Exceeds(54);
    ProductLessFactor(Pow2(970), Pow2(54));
  }

  lemma ProductLessFactor(a: nat, b: nat)
    requires 2 <= b
    ensures a <= a * b - a
  {
    assert a * b - a == a * (b - 1);
  }

  /** Whether `value` passes the number check of config.js. The cases
      decided here are those that need no binary rounding to decide:
      - the empty string has no numeric prefix: NaN;
      - a run of digits not continued by `.`, `e` or `E` is the numeric
        prefix parseFloat reads, an integer; it passes iff it is at least 1
        and does not round up to Infinity;
      - a string starting with a visible ASCII character other than a digit,
        `+` or `.` is NaN, negative, or +/-Infinity, and never passes.
      Every other string (a fraction, an exponent, leading white space, a
      leading `+` or `.`) is decided by `floatCheck`, which stands for the
      floating point evaluation. */
  function NumberAccepted(value: string, floatCheck: string -> bool): (accepted: bool)
    ensures |value| == 0 ==> !accepted
    ensures 0 < |value| && AllDigits(value) ==> (accepted <==> 1 <= Value(value) < FloatOverflow)
    ensures 0 < |value| && '!' <= value[0] <= '~' && !IsDigit(value[0]) && value[0] != '+' && value[0] != '.'
            ==> !accepted
  {
    WholeRun(value);
    assert value[..|value|] == value;
    if |value| == 0 then false
    else if IsDigit(value[0]) then
      var k := RunEnd(value, 0);
      if k == |value| || !(value[k] == '.' || value[k] == 'e' || value[k] == 'E')
      then 1 <= Value(value[..k]) < FloatOverflow
      else floatCheck(value)
    else if '!' <= value[0] <= '~' && value[0] != '+' && value[0] != '.' then false
    else floatCheck(value)
  }

  /** Below 2^970 (about 10^292) the overflow bound plays no part. */
  lemma SmallDigitStringNumber(s: string, floatCheck: string -> bool)
    requires 0 < |s| && AllDigits(s) && Value(s) < Pow2(970)
    ensures NumberAccepted(s, floatCheck) <==> 1 <= Value(s)
  {
    FloatOverflowLarge();
  }

  /** parseFloat reads the leading digits and ignores what follows, unless
      that continues the number: "12abc" passes as 12, "0x10" fails as 0. */
  lemma LeadingDigitsNumber(digits: string, rest: string, floatCheck: string -> bool)
    requires 0 < |digits| && AllDigits(digits)
    requires 0 < |rest| && !IsDigit(rest[0]) && rest[0] != '.' && rest[0] != 'e' && rest[0] != 'E'
    ensures NumberAccepted(digits + rest, floatCheck) <==> 1 <= Value(digits) < FloatOverflow
  {
    var s := digits + rest;
    assert s[..|digits|] == digits;
    assert s[|digits|] == rest[0];
    assert AllDigits(s[0..|digits|]);
    RunEndUnique(s, 0, |digits|);
  }

  /** Every positive integer, written out in decimal, passes. */
  lemma DecimalNumberAccepted(n: nat, floatCheck: string -> bool)
    requires 1 <= n < Pow2(970)
    ensures NumberAccepted(FromNat(n), floatCheck)
  {
    ValueOfFromNat(n);
    SmallDigitStringNumber(FromNat(n), floatCheck);
  }

  // ---------------------------------------------------------------------
  // The validators and getConfigurationKey

  /** The three validator lambdas passed by getConfiguration. */
  datatype Validator = UserValidator | RepositoryValidator | NumberValidator(floatCheck: string -> bool)

  function Validate(validator: Validator, value: Option<string>): (r: Result<(), ConfigError>)
    ensures r.Ok? ==> value.Some?
    ensures validator.UserValidator? ==>
      && (r.Ok? <==> value.Some? && ValidUsername(value.value))
      && (value.None? ==> r == Err(MatchOnUndefined))
      && (value.Some? && r.Err? ==> r.error == InvalidUser(value.value))
    ensures validator.RepositoryValidator? ==>
      && (r.Ok? <==> value.Some? && ValidRepository(value.value))
      && (value.None? ==> r == Err(MatchOnUndefined))
      && (value.Some? && r.Err? ==> r.error == InvalidRepository(value.value))
    ensures validator.NumberValidator? ==>
      && (r.Ok? <==> NumberAccepted(Display(value), validator.floatCheck))
      && (r.Err? ==> r.error == InvalidNumber(Display(value)))
  {
    UsernameRegexMatches(Display(value));
    RepositoryRegexMatches(Display(value));
    match validator
    case UserValidator =>
      if value.None? then Err(MatchOnUndefined)
      else if FullMatchPlus(UsernameClass, value.value) then Ok(())
      else Err(InvalidUser(value.value))
    case RepositoryValidator =>
      if value.None? then Err(MatchOnUndefined)
      else if FullMatchPlus(RepositoryClass, value.value) then Ok(())
      else Err(InvalidRepository(value.value))
    case NumberValidator(floatCheck) =>
      var shown := Display(value);
      if NumberAccepted(shown, floatCheck) then Ok(()) else Err(InvalidNumber(shown))
  }

  /** getConfigurationKey. `key` is `None` when the key is `undefined`; the
      guard tests the key itself, not the environment value. */
  function ConfigurationKey(env: Env, key: Option<string>, validator: Validator): (r: Result<string, ConfigError>)
    ensures key.None? ==> r == Err(UndeclaredKey("undefined"))
    ensures r.Ok? ==> key.Some? && key.value in env && r.value == env[key.value]
    ensures key.Some? ==> (r.Err? <==> Validate(validator, Lookup(env, key.value)).Err?)
    ensures key.Some? && r.Err? ==> Validate(validator, Lookup(env, key.value)) == Err(r.error)
  {
    if key.None? then Err(UndeclaredKey(Display(key)))
    else
      var value := Lookup(env, key.value);
      var _ :- Validate(validator, value);
      Ok(value.value)
  }

  /** getConfiguration: user, then repository, then number; the first
      failure is the result and the later keys are never looked at. */
  function GetConfiguration(env: Env, floatCheck: string -> bool): (r: Result<Configuration, ConfigError>)
    ensures r.Ok? <==>
      && UserKey in env && ValidUsername(env[UserKey])
      && RepositoryKey in env && ValidRepository(env[RepositoryKey])
      && NumberKey in env && NumberAccepted(env[NumberKey], floatCheck)
    ensures r.Ok? ==> r.value == Configuration(env[UserKey], env[RepositoryKey], env[NumberKey])
    ensures UserKey !in env ==> r == Err(MatchOnUndefined)
    ensures UserKey in env && !ValidUsername(env[UserKey]) ==> r == Err(InvalidUser(env[UserKey]))
    ensures UserKey in env && ValidUsername(env[UserKey]) ==>
      && (RepositoryKey !in env ==> r == Err(MatchOnUndefined))
      && (RepositoryKey in env && !ValidRepository(env[RepositoryKey]) ==>
            r == Err(InvalidRepository(env[RepositoryKey])))
    ensures UserKey in env && ValidUsername(env[UserKey]) &&
            RepositoryKey in env && ValidRepository(env[RepositoryKey]) &&
            !(NumberKey in env && NumberAccepted(env[NumberKey], floatCheck)) ==>
      r == Err(InvalidNumber(Display(Lookup(env, NumberKey))))
    ensures !(r.Err? && r.error.UndeclaredKey?)
  {
    UsernameRegexMatches(Display(Lookup(env, UserKey)));
    RepositoryRegexMatches(Display(Lookup(env, RepositoryKey)));
    assert !NumberAccepted("undefined", floatCheck);
    var user :- ConfigurationKey(env, Some(UserKey), UserValidator);
    var repository :- ConfigurationKey(env, Some(RepositoryKey), RepositoryValidator);
    var number :- ConfigurationKey(env, Some(NumberKey), NumberValidator(floatCheck));
    Ok(Configuration(user, repository, number))
  }

  /** Once the username check fails, nothing else in the environment (nor
      the number check) can change the outcome. */
  lemma UserFailureIgnoresLaterKeys(env1: Env, env2: Env, floatCheck1: string -> bool, floatCheck2: string -> bool)
    requires Lookup(env1, UserKey) == Lookup(env2, UserKey)
    requires !(UserKey in env1 && ValidUsername(env1[UserKey]))
    ensures GetConfiguration(env1, floatCheck1) == GetConfiguration(env2, floatCheck2)
  {
  }

  /** Once the repository check fails, the number is never examined. */
  lemma RepositoryFailureIgnoresNumber(env1: Env, env2: Env, floatCheck1: string -> bool, floatCheck2: string -> bool)
    requires Lookup(env1, UserKey) == Lookup(env2, UserKey)
    requires Lookup(env1, RepositoryKey) == Lookup(env2, RepositoryKey)
    requires UserKey in env1 && ValidUsername(env1[UserKey])
    requires !(RepositoryKey in env1 && ValidRepository(env1[RepositoryKey]))
    ensures GetConfiguration(env1, floatCheck1) == GetConfiguration(env2, floatCheck2)
  {
  }

  /** A validation message determines the error it reports: the kind from
      its ending, the value from its length. */
  lemma {:induction false} MessageDeterminesError(e1: ConfigError, e2: ConfigError)
    requires e1.InvalidUser? || e1.InvalidRepository? || e1.InvalidNumber?
    requires e2.InvalidUser? || e2.InvalidRepository? || e2.InvalidNumber?
    requires Message(e1) == Message(e2)
    ensures e1 == e2
  {
    var m := Message(e1);
    assert m[|m| - 1] == Message(e2)[|m| - 1];
    assert e1.InvalidUser? <==> e2.InvalidUser?;
    assert e1.InvalidRepository? <==> e2.InvalidRepository?;
    assert |e1.value| == |e2.value|;
    assert Quote(e1.value)[1..|e1.value| + 1] == e1.value;
    assert Quote(e2.value)[1..|e2.value| + 1] == e2.value;
  }

  // ---------------------------------------------------------------------
  // The key check as evidently intended: test the environment value

  /** getConfigurationKey with its guard on the environment value rather
      than on the key, so that a missing variable is reported by name. */
  function ConfigurationKeyChecked(env: Env, key: string, validator: Validator): (r: Result<string, ConfigError>)
    ensures key !in env ==> r == Err(UndeclaredKey(key))
    ensures key in env ==> (r.Ok? <==> Validate(validator, Some(env[key])).Ok?)
    ensures r.Ok? ==> key in env && r.value == env[key]
    ensures r.Err? ==> r.error != MatchOnUndefined
  {
    if key !in env then Err(UndeclaredKey(key))
    else
      var _ :- Validate(validator, Some(env[key]));
      Ok(env[key])
  }

  /** getConfiguration over the intended key check: the first variable
      missing, in the order user, repository, number, is reported by name. */
  function GetConfigurationChecked(env: Env, floatCheck: string -> bool): (r: Result<Configuration, ConfigError>)
    ensures r.Ok? <==>
      && UserKey in env && ValidUsername(env[UserKey])
      && RepositoryKey in env && ValidRepository(env[RepositoryKey])
      && NumberKey in env && NumberAccepted(env[NumberKey], floatCheck)
    ensures r.Ok? ==> r.value == Configuration(env[UserKey], env[RepositoryKey], env[NumberKey])
    ensures UserKey !in env ==> r == Err(UndeclaredKey(UserKey))
    ensures UserKey in env && ValidUsername(env[UserKey]) && RepositoryKey !in env ==>
      r == Err(UndeclaredKey(RepositoryKey))
    ensures UserKey in env && ValidUsername(env[UserKey]) &&
            RepositoryKey in env && ValidRepository(env[RepositoryKey]) && NumberKey !in env ==>
      r == Err(UndeclaredKey(NumberKey))
    ensures r.Err? ==> r.error != MatchOnUndefined
  {
    UsernameRegexMatches(Display(Lookup(env, UserKey)));
    RepositoryRegexMatches(Display(Lookup(env, RepositoryKey)));
    var user :- ConfigurationKeyChecked(env, UserKey, UserValidator);
    var repository :- ConfigurationKeyChecked(env, RepositoryKey, RepositoryValidator);
    var number :- ConfigurationKeyChecked(env, NumberKey, NumberValidator(floatCheck));
    Ok(Configuration(user, repository, number))
  }

  /** When every variable is set, the intended loader and the loader as
      written agree. */
  lemma CheckedAgreesWhenDeclared(env: Env, floatCheck: string -> bool)
    requires UserKey in env && RepositoryKey in env && NumberKey in env
    ensures GetConfigurationChecked(env, floatCheck) == GetConfiguration(env, floatCheck)
  {
  }

  // ---------------------------------------------------------------------
  // The scenarios of the configuration tests

  /** A missing GITHUB_REPOSITORY: the loader as written throws the
      TypeError of `undefined.match`, not the "not declared" error the test
      expects; the intended loader throws the expected one. */
  lemma MissingRepositoryScenario(floatCheck: string -> bool)
    ensures
      var env := map[UserKey := "just1not2", NumberKey := "1"];
      && GetConfiguration(env, floatCheck) == Err(MatchOnUndefined)
      && GetConfigurationChecked(env, floatCheck) == Err(UndeclaredKey(RepositoryKey))
  {
    var env := map[UserKey := "just1not2", NumberKey := "1"];
    assert RepositoryKey !in env;
    assert ValidUsername(env[UserKey]);
  }

  /** GITHUB_PR_NUMBER set to "NaN" is rejected with its raw value quoted. */
  lemma NotANumberScenario(floatCheck: string -> bool)
    ensures
      var env := map[UserKey := "just1not2", RepositoryKey := "ansible-collection-pm2", NumberKey := "NaN"];
      GetConfiguration(env, floatCheck) == Err(InvalidNumber("NaN"))
  {
    var env := map[UserKey := "just1not2", RepositoryKey := "ansible-collection-pm2", NumberKey := "NaN"];
    assert ValidUsername(env[UserKey]);
    assert ValidRepository(env[RepositoryKey]);
  }

  /** A valid environment comes back as the three raw strings. */
  lemma ValidScenario(floatCheck: string -> bool)
    ensures
      var env := map[UserKey := "just1not2", RepositoryKey := "ansible-collection-pm2", NumberKey := "1"];
      GetConfiguration(env, floatCheck) == Ok(Configuration("just1not2", "ansible-collection-pm2", "1"))
  {
    var env := map[UserKey := "just1not2", RepositoryKey := "ansible-collection-pm2", NumberKey := "1"];
    assert ValidUsername(env[UserKey]);
    assert ValidRepository(env[RepositoryKey]);
    assert Value("1") == 1;
    Pow2Exceeds(970);
    SmallDigitStringNumber("1", floatCheck);
  }

  /** Sample PR numbers: "0", "-1" and "abc" are rejected, "1" and "42"
      accepted, and "12abc" accepted as 12. */
  lemma NumberExamples(floatCheck: string -> bool)
    ensures !NumberAccepted("0", floatCheck)
    ensures !NumberAccepted("-1", floatCheck)
    ensures !NumberAccepted("abc", floatCheck)
    ensures NumberAccepted("1", floatCheck)
    ensures NumberAccepted("42", floatCheck)
    ensures NumberAccepted("12abc", floatCheck)
  {
    Pow2Exceeds(970);
    assert Value("0") == 0;
    SmallDigitStringNumber("0", floatCheck);
    assert Value("1") == 1;
    SmallDigitStringNumber("1", floatCheck);
    assert Value("42") == 42 by {
      assert "42"[..1] == "4";
    }
    SmallDigitStringNumber("42", floatCheck);
    assert Value("12") == 12 by {
      assert "12"[..1] == "1";
    }
    assert "12" + "abc" == "12abc";
    LeadingDigitsNumber("12", "abc", floatCheck);
  }
}
