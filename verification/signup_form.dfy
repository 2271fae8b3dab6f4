/** signup/script.js: the password-strength meter of the sign-up page and the
    checks its submit handler runs, in order, before it posts the form to
    `/api/auth/signup`. */
module SignupForm {
  import opened Wrappers
  import opened JsString
  import opened Regex
  import Auth
  import Api

  /** The page's own copy of `/^[a-z0-9_]{4,20}$/`. */
  const UserIdRegex: Pattern := Whole(CharClass([Range('a', 'z'), Range('0', '9'), Range('_', '_')], false), 4, 20)
  const LowerRegex: Pattern := Anywhere(CharClass([Range('a', 'z')], false))
  const UpperRegex: Pattern := Anywhere(CharClass([Range('A', 'Z')], false))
  const DigitRegex: Pattern := Anywhere(CharClass([Range('0', '9')], false))
  /** `/[^a-zA-Z0-9]/`: some character that is not an ASCII letter or digit. */
  const SymbolRegex: Pattern := Anywhere(CharClass([Range('a', 'z'), Range('A', 'Z'), Range('0', '9')], true))

  predicate IsAsciiAlphanumeric(c: char) {
    'a' <= c <= 'z' || 'A' <= c <= 'Z' || '0' <= c <= '9'
  }

  predicate HasSymbol(s: string) {
    exists i :: 0 <= i < |s| && !IsAsciiAlphanumeric(s[i])
  }

  lemma SymbolClassMeaning(c: char)
    ensures InClass(c, SymbolRegex.cls) <==> !IsAsciiAlphanumeric(c)
  {
    var ranges := SymbolRegex.cls.ranges;
    if 'a' <= c <= 'z' { assert ranges[0].lo <= c <= ranges[0].hi; }
    else if 'A' <= c <= 'Z' { assert ranges[1].lo <= c <= ranges[1].hi; }
    else if '0' <= c <= '9' { assert ranges[2].lo <= c <= ranges[2].hi; }
  }

  /** The search for `[^a-zA-Z0-9]` succeeds exactly on strings with a symbol. */
  lemma SymbolRegexMeaning(s: string)
    ensures Test(SymbolRegex, s) <==> HasSymbol(s)
  {
    SearchMatchMeaning(SymbolRegex.cls, s);
    forall c ensures InClass(c, SymbolRegex.cls) <==> !IsAsciiAlphanumeric(c) {
      SymbolClassMeaning(c);
    }
  }

  function Point(b: bool): nat {
    if b then 1 else 0
  }

  /** `checkPasswordStrength(password).score`: a point each for a length of 8
      code units, for mixed case, for a digit and for a symbol, capped at 3. */
  function CheckPasswordStrength(password: string): (score: nat)
    ensures score <= 3
  {
    var score := Point(Utf16Length(password) >= 8)
      + Point(Test(LowerRegex, password) && Test(UpperRegex, password))
      + Point(Test(DigitRegex, password))
      + Point(Test(SymbolRegex, password));
    if score < 3 then score else 3
  }

  /** The score counts the criteria met, in terms of the characters of the password. */
  lemma StrengthScoreMeaning(password: string)
    ensures var points := Point(Utf16Length(password) >= 8)
      + Point(Auth.HasCharIn(password, 'a', 'z') && Auth.HasCharIn(password, 'A', 'Z'))
      + Point(Auth.HasCharIn(password, '0', '9'))
      + Point(HasSymbol(password));
      CheckPasswordStrength(password) == if points < 3 then points else 3
  {
    Auth.AnywhereMeaning(password, 'a', 'z');
    Auth.AnywhereMeaning(password, 'A', 'Z');
    Auth.AnywhereMeaning(password, '0', '9');
    SymbolRegexMeaning(password);
  }

  /** Every password the server calls strong gets the top score. */
  lemma StrongPasswordScoresThree(password: string)
    requires Auth.IsStrongPassword(password)
    ensures CheckPasswordStrength(password) == 3
  {
    StrengthScoreMeaning(password);
  }

  /** A score of 2 needs two criteria, which no empty password meets. */
  lemma PassingScoreNotEmpty(password: string)
    requires CheckPasswordStrength(password) >= 2
    ensures password != ""
  {
    StrengthScoreMeaning(password);
  }

  /** What the submit handler does: show a notification, or post the form. */
  datatype Submission = Notify(message: string) | Post(userId: string, username: string, password: string)

  const MismatchMessage := "비밀번호가 일치하지 않습니다."
  const UserIdMessage := "아이디는 4-20자의 영문 소문자, 숫자, 언더스코어(_)만 사용 가능합니다."
  const UsernameMessage := "사용자명은 2자 이상 20자 이하여야 합니다."
  const WeakPasswordMessage := "더 강한 비밀번호를 사용해주세요."

  /** The submit handler up to the `fetch`: the identifier and the name are
      trimmed, the passwords are not; the first failing check decides. */
  function ValidateSubmission(userIdInput: string, usernameInput: string, password: string, confirmPassword: string)
    : (r: Submission)
    ensures r.Post? ==> r.userId == Trim(userIdInput) && r.username == Trim(usernameInput) && r.password == password
  {
    var userId := Trim(userIdInput);
    var username := Trim(usernameInput);
    if password != confirmPassword then Notify(MismatchMessage)
    else if !Test(UserIdRegex, userId) then Notify(UserIdMessage)
    else if Utf16Length(username) < 2 || Utf16Length(username) > 20 then Notify(UsernameMessage)
    else if CheckPasswordStrength(password) < 2 then Notify(WeakPasswordMessage)
    else Post(userId, username, password)
  }

  /** The body `JSON.stringify({ userId, username, password })` of the request. */
  function PostedBody(r: Submission): Api.Body
    requires r.Post?
  {
    Api.Fields(map["userId" := r.userId, "username" := r.username, "password" := r.password])
  }

  /** The page tests the trimmed identifier with the same pattern as the server. */
  lemma UserIdRuleMatchesServer(userId: string)
    ensures Test(UserIdRegex, userId) <==> Auth.IsValidUserId(userId)
  {
    assert UserIdRegex == Auth.UserIdPattern;
  }

  /** The checks run in the handler's order, each one only once the earlier
      ones pass, and any failure stops before the request is sent. */
  lemma SubmissionOrder(userIdInput: string, usernameInput: string, password: string, confirmPassword: string)
    ensures var r := ValidateSubmission(userIdInput, usernameInput, password, confirmPassword);
      var userId, username := Trim(userIdInput), Trim(usernameInput);
      && (password != confirmPassword ==> r == Notify(MismatchMessage))
      && (password == confirmPassword && !Auth.IsValidUserId(userId) ==> r == Notify(UserIdMessage))
      && (password == confirmPassword && Auth.IsValidUserId(userId) && !(2 <= Utf16Length(username) <= 20)
          ==> r == Notify(UsernameMessage))
      && (password == confirmPassword && Auth.IsValidUserId(userId) && 2 <= Utf16Length(username) <= 20
          && CheckPasswordStrength(password) < 2
          ==> r == Notify(WeakPasswordMessage))
      && (r.Post? <==> password == confirmPassword && Auth.IsValidUserId(userId)
                       && 2 <= Utf16Length(username) <= 20 && CheckPasswordStrength(password) >= 2)
  {
    UserIdRuleMatchesServer(Trim(userIdInput));
  }

  /** The page never holds back a password the server would accept: with
      matching passwords, a valid identifier and a name of fitting length, a
      strong password is posted. */
  lemma StrongPasswordPosted(userIdInput: string, usernameInput: string, password: string)
    requires Auth.IsValidUserId(Trim(userIdInput)) && 2 <= Utf16Length(Trim(usernameInput)) <= 20
    requires Auth.IsStrongPassword(password)
    ensures ValidateSubmission(userIdInput, usernameInput, password, password)
         == Post(Trim(userIdInput), Trim(usernameInput), password)
  {
    StrongPasswordScoresThree(password);
    UserIdRuleMatchesServer(Trim(userIdInput));
  }

  /** A posted form passes every check of the server's signup but the
      password rule and the duplicate test: the server's answer is the
      weak-password 400, the 409, or the insert. */
  lemma PostedFormMeetsServerChecks(t: Api.Table, userIdInput: string, usernameInput: string, password: string,
                                    confirmPassword: string)
    requires ValidateSubmission(userIdInput, usernameInput, password, confirmPassword).Post?
    ensures var r := ValidateSubmission(userIdInput, usernameInput, password, confirmPassword);
      var rejection := Api.SignupRejection(t, PostedBody(r));
      || rejection.None?
      || rejection == Some(Api.ErrorResponse(Api.WeakPasswordMessage, 400))
      || rejection == Some(Api.ErrorResponse(Api.UserIdTakenMessage, 409))
  {
    var r := ValidateSubmission(userIdInput, usernameInput, password, confirmPassword);
    UserIdRuleMatchesServer(r.userId);
    PassingScoreNotEmpty(password);
    var body := PostedBody(r);
    assert Api.Field(body, "userId") == r.userId && Api.Field(body, "username") == r.username
        && Api.Field(body, "password") == r.password;
    assert r.userId != "" && r.username != "";
  }

  const LowercasePassword := "abcdefg1"

  /** `abcdefg1` has eight code units, a lowercase letter and a digit, and
      no uppercase letter and no symbol. */
  lemma LowercasePasswordTraits()
    ensures Utf16Length(LowercasePassword) == 8
    ensures Auth.HasCharIn(LowercasePassword, 'a', 'z') && Auth.HasCharIn(LowercasePassword, '0', '9')
    ensures !Auth.HasCharIn(LowercasePassword, 'A', 'Z') && !HasSymbol(LowercasePassword)
  {
    var pw := LowercasePassword;
    assert pw[0] == 'a' && pw[7] == '1';
    forall i | 0 <= i < |pw| ensures 'a' <= pw[i] <= 'z' || pw[i] == '1' {}
    Utf16LengthOfBmp(pw);
  }

  /** `abcdefg1` meets two of the meter's criteria, length and digit, but
      has no uppercase letter. */
  lemma LowercasePasswordScore()
    ensures CheckPasswordStrength(LowercasePassword) == 2 && !Auth.IsStrongPassword(LowercasePassword)
  {
    LowercasePasswordTraits();
    StrengthScoreMeaning(LowercasePassword);
  }

  const PlainUserId := "testuser1"
  const PlainName := "Tester"

  /** `testuser1` and `Tester` carry no surrounding whitespace; the first is
      a valid identifier and the second six code units long. */
  lemma PlainInputs()
    ensures Trim(PlainUserId) == PlainUserId && Trim(PlainName) == PlainName
    ensures Auth.IsValidUserId(PlainUserId) && Utf16Length(PlainName) == 6
  {
    PlainUserIdFacts();
    TrimPlain(PlainName);
    Utf16LengthOfBmp(PlainName);
  }

  lemma PlainUserIdFacts()
    ensures Trim(PlainUserId) == PlainUserId && Auth.IsValidUserId(PlainUserId)
  {
    TrimPlain(PlainUserId);
    var s := "testuser1";
    assert s == PlainUserId;
    forall i | 0 <= i < |s| ensures Auth.IsUserIdChar(s[i]) {}
  }

  /** The page posts `testuser1` / `Tester` / `abcdefg1`. */
  lemma LowercasePasswordPosted()
    ensures ValidateSubmission(PlainUserId, PlainName, LowercasePassword, LowercasePassword)
         == Post(PlainUserId, PlainName, LowercasePassword)
  {
    PlainInputs();
    LowercasePasswordScore();
    UserIdRuleMatchesServer(PlainUserId);
  }

  /** A posted form whose identifier is valid but whose password is not
      strong meets the server's weak-password 400, whatever the table holds. */
  lemma PostedWeakPasswordRefused(t: Api.Table, r: Submission)
    requires r.Post? && r.userId != "" && r.username != "" && r.password != ""
    requires Auth.IsValidUserId(r.userId) && !Auth.IsStrongPassword(r.password)
    ensures Api.SignupRejection(t, PostedBody(r)) == Some(Api.ErrorResponse(Api.WeakPasswordMessage, 400))
  {
    var body := PostedBody(r);
    assert Api.Field(body, "userId") == r.userId && Api.Field(body, "username") == r.username
        && Api.Field(body, "password") == r.password;
  }

  /** The meter is laxer than the server: the page posts `abcdefg1`, and the
      server answers the weak-password 400 whatever the table holds. */
  lemma LowercasePasswordPostedThenRefused(t: Api.Table)
    ensures ValidateSubmission(PlainUserId, PlainName, LowercasePassword, LowercasePassword)
         == Post(PlainUserId, PlainName, LowercasePassword)
    ensures Api.SignupRejection(t, PostedBody(Post(PlainUserId, PlainName, LowercasePassword)))
         == Some(Api.ErrorResponse(Api.WeakPasswordMessage, 400))
  {
    LowercasePasswordPosted();
    PlainInputs();
    LowercasePasswordScore();
    PostedWeakPasswordRefused(t, Post(PlainUserId, PlainName, LowercasePassword));
  }

  /** A string that neither starts nor ends with whitespace trims to itself. */
  lemma TrimPlain(s: string)
    requires s != [] && !IsJsWhitespace(s[0]) && !IsJsWhitespace(s[|s| - 1])
    ensures Trim(s) == s
  {
  }
}
