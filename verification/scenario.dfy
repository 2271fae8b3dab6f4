/** The sign-up-then-log-in walk through the handlers with the credentials
    `testuser1` / `Passw0rd` / `Tester`. */
module Scenario {
  import opened Wrappers
  import opened JsString
  import opened Json
  import opened Runtime
  import opened Auth
  import opened Api

  const SignupBody: Body := Fields(map["userId" := "testuser1", "password" := "Passw0rd", "username" := "Tester"])
  const LoginBody: Body := Fields(map["userId" := "testuser1", "password" := "Passw0rd"])

  lemma IdentifierValid()
    ensures IsValidUserId("testuser1") && Latin1("testuser1")
  {
    var s := "testuser1";
    forall i | 0 <= i < |s| ensures IsUserIdChar(s[i]) {}
  }

  lemma PasswordStrong()
    ensures IsStrongPassword("Passw0rd")
  {
    var pw := "Passw0rd";
    assert pw[1] == 'a' && pw[0] == 'P' && pw[5] == '0';
  }

  lemma NameFits()
    ensures Utf16Length("Tester") == 6 && Latin1("Tester")
  {
    Utf16LengthOfBmp("Tester");
  }

  lemma BodyFields()
    ensures Field(SignupBody, "userId") == "testuser1" && Field(SignupBody, "password") == "Passw0rd"
    ensures Field(SignupBody, "username") == "Tester"
    ensures Field(LoginBody, "userId") == "testuser1" && Field(LoginBody, "password") == "Passw0rd"
  {
  }

  /** The scenario's signup passes every check of `handleSignup`. */
  lemma SignupBodyAccepted()
    ensures SignupAccepted([], SignupBody)
  {
    BodyFields();
    IdentifierValid();
    PasswordStrong();
    NameFits();
  }

  /** The row the scenario's signup inserts. */
  function NewRow(p: Platform, clock: Clock): User {
    SignupRow(p, clock, [], SignupBody)
  }

  /** Signing up on an empty table answers 201 with a token and inserts one
      row for `testuser1`. */
  lemma ScenarioSignup(p: Platform, env: Env, first: Clock)
    requires Lawful(p)
    requires -MaxSafeInteger <= first.epochSeconds && first.epochSeconds + SessionTtl <= MaxSafeInteger
    ensures var s := SignupStep(p, env, first, [], SignupBody);
      && s.response.status == 201 && TokenOf(s.response).Some?
      && s.table == [NewRow(p, first)] && NewRow(p, first).userId == "testuser1"
  {
    SignupBodyAccepted();
    BodyFields();
    NameFits();
    SignupCreated(p, env, first, [], SignupBody);
  }

  /** Logging in with the same credentials answers 200 with a token for that row. */
  lemma ScenarioLogin(p: Platform, env: Env, first: Clock, second: Clock)
    requires Lawful(p)
    requires -MaxSafeInteger <= second.epochSeconds && second.epochSeconds + SessionTtl <= MaxSafeInteger
    ensures var l := LoginStep(p, env, second, [NewRow(p, first)], LoginBody);
      && l.response.status == 200
      && IssueToken(p, env, second, NewRow(p, first)).Ok?
      && TokenOf(l.response) == Some(IssueToken(p, env, second, NewRow(p, first)).value)
  {
    IdentifierValid();
    NameFits();
    NewRowAuthenticates(p, first);
    LoginSucceeds(p, env, second, [NewRow(p, first)], LoginBody, 0);
  }

  /** The inserted row: id 1, active, `testuser1` / `Tester`, the hash of `Passw0rd`. */
  lemma NewRowFacts(p: Platform, clock: Clock)
    ensures var u := NewRow(p, clock);
      && u.id == 1 && u.isActive && u.userId == "testuser1" && u.username == "Tester"
      && u.passwordHash == HashPassword(p, "Passw0rd")
  {
    BodyFields();
  }

  /** The login body authenticates the one row of the table the signup leaves. */
  lemma NewRowAuthenticates(p: Platform, clock: Clock)
    ensures WellFormed([NewRow(p, clock)]) && Authenticates(p, [NewRow(p, clock)], LoginBody, 0)
  {
    BodyFields();
    NewRowFacts(p, clock);
    VerifyOwnHash(p, "Passw0rd");
  }

  /** Signing up on an empty table answers 201 with a token; logging in with
      the same credentials then answers 200 with a token for the new row, whose
      `userId` is `testuser1`; signing up again answers 409. */
  lemma SignupThenLogin(p: Platform, env: Env, first: Clock, second: Clock)
    requires Lawful(p)
    requires -MaxSafeInteger <= first.epochSeconds && first.epochSeconds + SessionTtl <= MaxSafeInteger
    requires -MaxSafeInteger <= second.epochSeconds && second.epochSeconds + SessionTtl <= MaxSafeInteger
    ensures var s := SignupStep(p, env, first, [], SignupBody);
      var l := LoginStep(p, env, second, s.table, LoginBody);
      && s.response.status == 201 && TokenOf(s.response).Some?
      && |s.table| == 1 && s.table[0].userId == "testuser1"
      && l.response.status == 200
      && IssueToken(p, env, second, s.table[0]).Ok?
      && TokenOf(l.response) == Some(IssueToken(p, env, second, s.table[0]).value)
      && SignupStep(p, env, second, s.table, SignupBody).response.status == 409
  {
    ScenarioSignup(p, env, first);
    ScenarioLogin(p, env, first, second);
    SignupBodyAccepted();
    SignupRetryConflicts(p, env, first, second, [], SignupBody);
  }
}
