/**
 * The login rate limiter and the registration rules of lib/auth.ts.
 * `Date.now()` is the parameter `now` (milliseconds); zod's e-mail
 * format check is the parameter `emailFormatOk`.
 */
module Auth {
  import opened Wrappers

  // ---------------------------------------------------------------------
  // Rate limiting

  /** Attempts are forgotten once the last one is more than 15 minutes old. */
  const WINDOW_MS: int := 15 * 60 * 1000
  const MAX_ATTEMPTS: int := 5
  const MINUTE_MS: int := 60 * 1000

  /** The value `loginAttempts` keeps per e-mail address. */
  datatype Attempt = Attempt(count: int, lastAttempt: int)

  /** What `checkRateLimit` returns; `remainingTime` is present only when refused. */
  datatype RateLimit = RateLimit(allowed: bool, remainingTime: Option<int>)

  /** `Math.ceil(ms / 1000 / 60)` for a non-negative whole number of milliseconds. */
  function CeilMinutes(ms: int): (minutes: int)
    requires ms >= 0
    ensures (minutes - 1) * MINUTE_MS < ms <= minutes * MINUTE_MS
  {
    (ms + MINUTE_MS - 1) / MINUTE_MS
  }

  /** Whether the stored attempt has fallen out of the window at `now`. */
  predicate Expired(attempt: Attempt, now: int) {
    now - attempt.lastAttempt > WINDOW_MS
  }

  /**
   * An address with no record, or whose record is more than 900000 ms
   * old, is allowed; within the window it is refused exactly when it has
   * 5 or more attempts, and then the wait is the remaining time rounded up
   * to whole minutes, between 0 and 15 once time has not run backwards.
   */
  function RateLimitResult(loginAttempts: map<string, Attempt>, email: string, now: int): (r: RateLimit)
    ensures email !in loginAttempts ==> r.allowed
    ensures email in loginAttempts && Expired(loginAttempts[email], now) ==> r.allowed
    ensures email in loginAttempts && !Expired(loginAttempts[email], now) ==>
              (!r.allowed <==> loginAttempts[email].count >= MAX_ATTEMPTS)
    ensures r.allowed <==> r.remainingTime.None?
    ensures !r.allowed ==>
              var left := WINDOW_MS - (now - loginAttempts[email].lastAttempt);
              && (r.remainingTime.value - 1) * MINUTE_MS < left <= r.remainingTime.value * MINUTE_MS
              && 0 <= r.remainingTime.value
              && (now >= loginAttempts[email].lastAttempt ==> r.remainingTime.value <= 15)
  {
    if email !in loginAttempts then RateLimit(true, None)
    else
      var attempt := loginAttempts[email];
      if Expired(attempt, now) then RateLimit(true, None)
      else if attempt.count >= MAX_ATTEMPTS then
        RateLimit(false, Some(CeilMinutes(WINDOW_MS - (now - attempt.lastAttempt))))
      else RateLimit(true, None)
  }

  /** The map after `checkRateLimit`: only an expired record of this address is deleted. */
  function AttemptsAfterCheck(loginAttempts: map<string, Attempt>, email: string, now: int): (after: map<string, Attempt>)
    ensures forall e :: e != email ==> (e in after <==> e in loginAttempts)
    ensures forall e :: e in after ==> e in loginAttempts && after[e] == loginAttempts[e]
    ensures email in after <==> email in loginAttempts && !Expired(loginAttempts[email], now)
  {
    if email in loginAttempts && Expired(loginAttempts[email], now) then loginAttempts - {email}
    else loginAttempts
  }

  /**
   * The map after `recordLoginAttempt`: success forgets the address; a
   * failure adds one to its count (from 0 without a record) and stamps it
   * with `now`; no other address changes.
   */
  function AttemptsAfterRecord(loginAttempts: map<string, Attempt>, email: string, success: bool, now: int)
    : (after: map<string, Attempt>)
    ensures success ==> email !in after
    ensures !success ==> email in after && after[email].lastAttempt == now
                         && after[email].count == (if email in loginAttempts then loginAttempts[email].count else 0) + 1
    ensures forall e :: e != email ==> (e in after <==> e in loginAttempts)
    ensures forall e :: e != email && e in after ==> after[e] == loginAttempts[e]
  {
    if success then loginAttempts - {email}
    else
      var count := if email in loginAttempts then loginAttempts[email].count else 0;
      loginAttempts[email := Attempt(count + 1, now)]
  }

  /**
   * A run of failed logins by one address, each checked first as
   * `loginUser` does; a refused login records nothing.
   */
  function FailedLogins(loginAttempts: map<string, Attempt>, email: string, times: seq<int>): map<string, Attempt>
    decreases |times|
  {
    if times == [] then loginAttempts
    else
      var prev := FailedLogins(loginAttempts, email, times[..|times| - 1]);
      var now := times[|times| - 1];
      var checked := AttemptsAfterCheck(prev, email, now);
      if RateLimitResult(prev, email, now).allowed then AttemptsAfterRecord(checked, email, false, now) else checked
  }

  /** Failures at most 15 minutes apart pile up on one record. */
  lemma {:induction false} FailuresAccumulate(loginAttempts: map<string, Attempt>, email: string, times: seq<int>)
    requires email !in loginAttempts
    requires 0 < |times| <= MAX_ATTEMPTS
    requires forall i :: 0 < i < |times| ==> 0 <= times[i] - times[i - 1] <= WINDOW_MS
    ensures email in FailedLogins(loginAttempts, email, times)
    ensures FailedLogins(loginAttempts, email, times)[email] == Attempt(|times|, times[|times| - 1])
    decreases |times|
  {
    if |times| > 1 {
      var front := times[..|times| - 1];
      forall i | 0 < i < |front| ensures 0 <= front[i] - front[i - 1] <= WINDOW_MS {
        assert front[i] == times[i] && front[i - 1] == times[i - 1];
      }
      FailuresAccumulate(loginAttempts, email, front);
    }
  }

  /**
   * Five failed logins from a fresh address, each within 15 minutes of
   * the one before, lock it: a check within 15 minutes of the fifth is
   * refused, with a wait of at most 15 minutes.
   */
  lemma FiveFailuresBlock(loginAttempts: map<string, Attempt>, email: string, times: seq<int>, now: int)
    requires email !in loginAttempts
    requires |times| == MAX_ATTEMPTS
    requires forall i :: 0 < i < |times| ==> 0 <= times[i] - times[i - 1] <= WINDOW_MS
    requires 0 <= now - times[|times| - 1] <= WINDOW_MS
    ensures var r := RateLimitResult(FailedLogins(loginAttempts, email, times), email, now);
      !r.allowed && 0 <= r.remainingTime.value <= 15
  {
    FailuresAccumulate(loginAttempts, email, times);
  }

  /** The module-level `loginAttempts` map and the two functions that update it. */
  class LoginLimiter {
    var loginAttempts: map<string, Attempt>

    constructor()
      ensures loginAttempts == map[]
    {
      loginAttempts := map[];
    }

    method CheckRateLimit(email: string, now: int) returns (r: RateLimit)
      modifies this
      ensures r == RateLimitResult(old(loginAttempts), email, now)
      ensures loginAttempts == AttemptsAfterCheck(old(loginAttempts), email, now)
    {
      if email !in loginAttempts {
        return RateLimit(true, None);
      }
      var attempt := loginAttempts[email];
      if now - attempt.lastAttempt > WINDOW_MS {
        loginAttempts := loginAttempts - {email};
        return RateLimit(true, None);
      }
      if attempt.count >= MAX_ATTEMPTS {
        var remainingTime := CeilMinutes(WINDOW_MS - (now - attempt.lastAttempt));
        return RateLimit(false, Some(remainingTime));
      }
      return RateLimit(true, None);
    }

    method RecordLoginAttempt(email: string, success: bool, now: int)
      modifies this
      ensures loginAttempts == AttemptsAfterRecord(old(loginAttempts), email, success, now)
    {
      if success {
        loginAttempts := loginAttempts - {email};
        return;
      }
      var attempt := if email in loginAttempts then loginAttempts[email] else Attempt(0, now);
      attempt := attempt.(count := attempt.count + 1);
      attempt := attempt.(lastAttempt := now);
      loginAttempts := loginAttempts[email := attempt];
    }
  }

  // ---------------------------------------------------------------------
  // userRegistrationSchema and loginSchema

  /** The registration form as the schema sees it; `age` is any JavaScript number. */
  datatype Registration = Registration(email: string, nickname: string, age: real, password: string)

  /** One failed rule of the schema, in the order the schema declares them. */
  datatype Issue =
    | EmailFormat | EmailTooShort | EmailTooLong
    | NicknameTooShort | NicknameTooLong | NicknameCharacters
    | AgeNotInteger | AgeTooLow | AgeTooHigh
    | PasswordTooShort | PasswordTooLong | PasswordCharacterClasses

  /** `\s` of a JavaScript regular expression: white space and line terminators. */
  predicate IsSpace(ch: char) {
    || ch == '\t' || ch == '\n' || ch == '\U{000B}' || ch == '\U{000C}' || ch == '\r' || ch == ' '
    || ch == '\U{00A0}' || ch == '\U{1680}' || ('\U{2000}' <= ch <= '\U{200A}')
    || ch == '\U{2028}' || ch == '\U{2029}' || ch == '\U{202F}' || ch == '\U{205F}'
    || ch == '\U{3000}' || ch == '\U{FEFF}'
  }

  /**
   * The nickname character class: ASCII letters and digits, hiragana
   * U+3041 to U+3093, katakana U+30A1 to U+30F6, the long-vowel mark
   * U+30FC, kanji U+4E00 to U+9FA0, the iteration mark U+3005 and `\s`.
   */
  predicate IsNicknameChar(ch: char) {
    || ('a' <= ch <= 'z') || ('A' <= ch <= 'Z') || ('0' <= ch <= '9')
    || ('\U{3041}' <= ch <= '\U{3093}')
    || ('\U{30A1}' <= ch <= '\U{30F6}')
    || ch == '\U{30FC}'
    || ('\U{4E00}' <= ch <= '\U{9FA0}')
    || ch == '\U{3005}'
    || IsSpace(ch)
  }

  predicate HasLower(s: string) { exists i :: 0 <= i < |s| && 'a' <= s[i] <= 'z' }
  predicate HasUpper(s: string) { exists i :: 0 <= i < |s| && 'A' <= s[i] <= 'Z' }
  predicate HasDigit(s: string) { exists i :: 0 <= i < |s| && '0' <= s[i] <= '9' }

  /** The line terminators that `.` of a JavaScript regular expression does not match. */
  predicate IsLineTerminator(ch: char) {
    ch == '\n' || ch == '\r' || ch == '\U{2028}' || ch == '\U{2029}'
  }

  /**
   * The text before the first line terminator: all that the `.*` of the
   * password's lookaheads can scan.
   */
  function FirstLine(s: string): (line: string)
    ensures line <= s
    ensures forall i :: 0 <= i < |line| ==> !IsLineTerminator(line[i])
    ensures |line| < |s| ==> IsLineTerminator(s[|line|])
  {
    if s == [] || IsLineTerminator(s[0]) then [] else [s[0]] + FirstLine(s[1..])
  }

  predicate IsInteger(x: real) {
    x.Floor as real == x
  }

  function EmailIssues(email: string, emailFormatOk: bool): seq<Issue> {
    (if emailFormatOk then [] else [EmailFormat])
    + (if |email| < 5 then [EmailTooShort] else [])
    + (if |email| > 255 then [EmailTooLong] else [])
  }

  function NicknameIssues(nickname: string): seq<Issue> {
    (if |nickname| < 2 then [NicknameTooShort] else [])
    + (if |nickname| > 50 then [NicknameTooLong] else [])
    + (if |nickname| > 0 && forall i :: 0 <= i < |nickname| ==> IsNicknameChar(nickname[i]) then []
       else [NicknameCharacters])
  }

  function AgeIssues(age: real): seq<Issue> {
    (if IsInteger(age) then [] else [AgeNotInteger])
    + (if age < 1.0 then [AgeTooLow] else [])
    + (if age > 150.0 then [AgeTooHigh] else [])
  }

  function PasswordIssues(password: string): seq<Issue> {
    (if |password| < 8 then [PasswordTooShort] else [])
    + (if |password| > 100 then [PasswordTooLong] else [])
    + (var line := FirstLine(password);
       if HasLower(line) && HasUpper(line) && HasDigit(line) then [] else [PasswordCharacterClasses])
  }

  /** Every failed rule, field by field in the schema's order. */
  function RegistrationIssues(data: Registration, emailFormatOk: bool): seq<Issue> {
    EmailIssues(data.email, emailFormatOk) + NicknameIssues(data.nickname) + AgeIssues(data.age)
    + PasswordIssues(data.password)
  }

  /**
   * `registerUser` stops with the message of the first failed rule, if
   * any: the first issue of the first field, in the schema's field order,
   * that has one.
   */
  function RegistrationError(data: Registration, emailFormatOk: bool): (r: Option<Issue>)
    ensures r.None? <==> RegistrationIssues(data, emailFormatOk) == []
    ensures r.Some? ==> r.value in RegistrationIssues(data, emailFormatOk)
    ensures var e, n, a, p := EmailIssues(data.email, emailFormatOk), NicknameIssues(data.nickname),
                              AgeIssues(data.age), PasswordIssues(data.password);
            r == if e != [] then Some(e[0])
                 else if n != [] then Some(n[0])
                 else if a != [] then Some(a[0])
                 else if p != [] then Some(p[0])
                 else None
  {
    var issues := RegistrationIssues(data, emailFormatOk);
    if issues == [] then None else Some(issues[0])
  }

  /**
   * A valid address with a one-character nickname is reported as a too
   * short nickname, whatever the age and the password are.
   */
  lemma ShortNicknameReported(data: Registration, emailFormatOk: bool)
    requires emailFormatOk && 5 <= |data.email| <= 255
    requires |data.nickname| == 1
    ensures RegistrationError(data, emailFormatOk) == Some(NicknameTooShort)
  {
  }

  /**
   * A failed address format is reported before anything else, even when
   * every other field fails too.
   */
  lemma EmailFormatFirst(data: Registration)
    ensures RegistrationError(data, false) == Some(EmailFormat)
  {
  }

  /**
   * A registration passes exactly when the address is well formed and 5
   * to 255 characters long, the nickname has 2 to 50 characters all from
   * its class, the age is a whole number from 1 to 150, and the password
   * has 8 to 100 characters with a lower-case letter, an upper-case
   * letter and a digit before its first line break.
   */
  lemma RegistrationSpec(data: Registration, emailFormatOk: bool)
    ensures RegistrationError(data, emailFormatOk).None? <==>
              && emailFormatOk && 5 <= |data.email| <= 255
              && 2 <= |data.nickname| <= 50
              && (forall i :: 0 <= i < |data.nickname| ==> IsNicknameChar(data.nickname[i]))
              && IsInteger(data.age) && 1.0 <= data.age <= 150.0
              && 8 <= |data.password| <= 100
              && HasLower(FirstLine(data.password)) && HasUpper(FirstLine(data.password))
              && HasDigit(FirstLine(data.password))
  {
    var e, n, a, p := EmailIssues(data.email, emailFormatOk), NicknameIssues(data.nickname),
                      AgeIssues(data.age), PasswordIssues(data.password);
    assert RegistrationIssues(data, emailFormatOk) == e + n + a + p;
    assert |e + n + a + p| == |e| + |n| + |a| + |p|;
  }

  /** `loginSchema`: a well-formed address and a non-empty password. */
  predicate ValidLogin(emailFormatOk: bool, password: string) {
    emailFormatOk && |password| >= 1
  }
}
