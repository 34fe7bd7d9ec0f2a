/**
 * Client-side signup validation. Three checks run in a fixed order: the
 * username's format, the username against the names already taken, then the
 * password's format. The first failure sets one error message and stops.
 *
 * Both formats are JavaScript regular expressions without flags:
 *   username  ^(?=.*[A-Z])(?=.*\d).+$
 *   password  ^(?=.*[A-Z])(?=.*\d).{8,}$
 * Here `.` matches any character except a line terminator, `[A-Z]` an ASCII
 * capital and `\d` an ASCII digit.
 */
module Signup {

  /** The names treated as already registered. */
  const ExistingUsers: seq<string> := ["User1", "Admin123"]

  const UsernameFormatMessage := "Username must include at least 1 capital letter and 1 number."
  const UsernameTakenMessage := "Username already exists. Please choose another."
  const PasswordFormatMessage :=
    "Password must be at least 8 characters long, include 1 capital letter, and 1 number."

  /** The characters that `.` does not match. */
  predicate IsLineTerminator(c: char)
  {
    c == '\n' || c == '\r' || c == '\U{2028}' || c == '\U{2029}'
  }

  predicate IsAsciiUpper(c: char)
  {
    'A' <= c <= 'Z'
  }

  predicate IsAsciiDigit(c: char)
  {
    '0' <= c <= '9'
  }

  /** The two character classes the lookaheads search for: [A-Z] and \d. */
  datatype CharClass = Upper | Digit

  predicate InClass(c: char, cls: CharClass)
  {
    match cls
    case Upper => IsAsciiUpper(c)
    case Digit => IsAsciiDigit(c)
  }

  /**
   * The lookahead `(?=.*X)` tried at the start of s: a run of characters
   * matched by `.` followed by one character of class X.
   */
  predicate LookaheadFinds(s: string, cls: CharClass)
    decreases |s|
  {
    |s| > 0 && (InClass(s[0], cls) || (!IsLineTerminator(s[0]) && LookaheadFinds(s[1..], cls)))
  }

  /** `.{min,}$` matched from the start of s: at least min dots, up to the end. */
  predicate DotsToEnd(s: string, min: nat)
    decreases |s|
  {
    if |s| == 0 then min == 0
    else !IsLineTerminator(s[0]) && DotsToEnd(s[1..], if min == 0 then 0 else min - 1)
  }

  /** The username regular expression; it never accepts the empty string. */
  predicate UsernamePattern(s: string)
    ensures UsernamePattern(s) ==> 0 < |s|
  {
    LookaheadFinds(s, Upper) && LookaheadFinds(s, Digit) && DotsToEnd(s, 1)
  }

  /**
   * The password regular expression; it accepts only strings of eight
   * characters or more, all of which the username expression accepts too.
   */
  predicate PasswordPattern(s: string)
    ensures PasswordPattern(s) ==> 8 <= |s| && UsernamePattern(s)
  {
    DotsToEndMeaning(s, 8);
    DotsToEndMeaning(s, 1);
    LookaheadFinds(s, Upper) && LookaheadFinds(s, Digit) && DotsToEnd(s, 8)
  }

  predicate SingleLine(s: string)
  {
    forall i :: 0 <= i < |s| ==> !IsLineTerminator(s[i])
  }

  predicate Contains(s: string, cls: CharClass)
  {
    exists i :: 0 <= i < |s| && InClass(s[i], cls)
  }

  /** The username rule in plain words: non-empty, one line, a capital and a digit. */
  predicate WellFormedUsername(s: string)
  {
    0 < |s| && SingleLine(s) && Contains(s, Upper) && Contains(s, Digit)
  }

  /** The password rule in plain words: eight characters or more, one line, a capital and a digit. */
  predicate WellFormedPassword(s: string)
  {
    8 <= |s| && SingleLine(s) && Contains(s, Upper) && Contains(s, Digit)
  }

  /** On a single line, the lookahead succeeds exactly when the class occurs. */
  lemma {:induction false} LookaheadMeaning(s: string, cls: CharClass)
    requires SingleLine(s)
    ensures LookaheadFinds(s, cls) <==> Contains(s, cls)
  {
    if |s| > 0 {
      var rest := s[1..];
      assert SingleLine(rest) by {
        forall i | 0 <= i < |rest| ensures !IsLineTerminator(rest[i]) {
          assert rest[i] == s[i + 1];
        }
      }
      LookaheadMeaning(rest, cls);
      if Contains(s, cls) && !InClass(s[0], cls) {
        var i :| 0 <= i < |s| && InClass(s[i], cls);
        assert InClass(rest[i - 1], cls);
      }
      if Contains(rest, cls) {
        var i :| 0 <= i < |rest| && InClass(rest[i], cls);
        assert InClass(s[i + 1], cls);
      }
    }
  }

  /** `.{min,}$` matches exactly the single-line strings of length at least min. */
  lemma {:induction false} DotsToEndMeaning(s: string, min: nat)
    ensures DotsToEnd(s, min) <==> min <= |s| && SingleLine(s)
  {
    if |s| > 0 {
      var rest := s[1..];
      DotsToEndMeaning(rest, if min == 0 then 0 else min - 1);
      if SingleLine(s) {
        assert SingleLine(rest) by {
          forall i | 0 <= i < |rest| ensures !IsLineTerminator(rest[i]) {
            assert rest[i] == s[i + 1];
          }
        }
      }
      if !IsLineTerminator(s[0]) && SingleLine(rest) {
        assert SingleLine(s) by {
          forall i | 0 <= i < |s| ensures !IsLineTerminator(s[i]) {
            if i > 0 { assert s[i] == rest[i - 1]; }
          }
        }
      }
    }
  }

  /** The username regular expression accepts exactly the well-formed usernames. */
  lemma UsernamePatternMeaning(s: string)
    ensures UsernamePattern(s) <==> WellFormedUsername(s)
  {
    DotsToEndMeaning(s, 1);
    if SingleLine(s) {
      LookaheadMeaning(s, Upper);
      LookaheadMeaning(s, Digit);
    }
  }

  /** The password regular expression accepts exactly the well-formed passwords. */
  lemma PasswordPatternMeaning(s: string)
    ensures PasswordPattern(s) <==> WellFormedPassword(s)
  {
    DotsToEndMeaning(s, 8);
    if SingleLine(s) {
      LookaheadMeaning(s, Upper);
      LookaheadMeaning(s, Digit);
    }
  }

  /** The result of one submit. */
  datatype Outcome =
    | UsernameRejected(message: string)
    | PasswordRejected(message: string)
    | Accepted

  /**
   * The decision the submit handler takes, check by check: a password is
   * judged only once the username has passed both of its checks.
   */
  function Evaluate(username: string, password: string): (r: Outcome)
    ensures r.UsernameRejected? ==> r.message in {UsernameFormatMessage, UsernameTakenMessage}
    ensures r.UsernameRejected? <==> !UsernamePattern(username) || username in ExistingUsers
    ensures r.PasswordRejected? ==> r.message == PasswordFormatMessage
    ensures r.PasswordRejected? ==> !PasswordPattern(password)
    ensures r == Accepted ==> 8 <= |password| && 0 < |username|
  {
    if !UsernamePattern(username) then UsernameRejected(UsernameFormatMessage)
    else if username in ExistingUsers then UsernameRejected(UsernameTakenMessage)
    else if !PasswordPattern(password) then PasswordRejected(PasswordFormatMessage)
    else Accepted
  }

  /**
   * The checks in order: a malformed username is reported first, then a
   * taken one, then a malformed password; a submit is accepted exactly when
   * all three pass.
   */
  lemma EvaluateMeaning(username: string, password: string)
    ensures Evaluate(username, password) == UsernameRejected(UsernameFormatMessage)
        <==> !WellFormedUsername(username)
    ensures Evaluate(username, password) == UsernameRejected(UsernameTakenMessage)
        <==> WellFormedUsername(username) && (username == "User1" || username == "Admin123")
    ensures Evaluate(username, password) == PasswordRejected(PasswordFormatMessage)
        <==> WellFormedUsername(username) && username !in ExistingUsers && !WellFormedPassword(password)
    ensures Evaluate(username, password) == Accepted
        <==> WellFormedUsername(username) && username !in ExistingUsers && WellFormedPassword(password)
  {
    UsernamePatternMeaning(username);
    PasswordPatternMeaning(password);
  }

  /**
   * Both taken names pass the username format, so the taken-name check is
   * reached for them whatever the password.
   */
  lemma TakenNamesReachable(password: string)
    ensures WellFormedUsername("User1") && WellFormedUsername("Admin123")
    ensures Evaluate("User1", password) == UsernameRejected(UsernameTakenMessage)
    ensures Evaluate("Admin123", password) == UsernameRejected(UsernameTakenMessage)
  {
    var u1, u2 := "User1", "Admin123";
    assert IsAsciiUpper(u1[0]) && IsAsciiDigit(u1[4]);
    assert IsAsciiUpper(u2[0]) && IsAsciiDigit(u2[5]);
    assert SingleLine(u1) && SingleLine(u2);
    UsernamePatternMeaning(u1);
    UsernamePatternMeaning(u2);
  }

  class SignupComponent {
    var username: string
    var email: string
    var password: string
    var usernameError: string
    var passwordError: string

    constructor ()
      ensures username == "" && email == "" && password == ""
      ensures usernameError == "" && passwordError == ""
    {
      username, email, password := "", "", "";
      usernameError, passwordError := "", "";
    }

    /**
     * The form's submit handler. Both messages are cleared first; the first
     * failing check sets its message and stops; navigated reports that the
     * success branch (the redirect to the cabin list) was reached.
     */
    method OnSubmit() returns (navigated: bool)
      modifies this`usernameError, this`passwordError
      ensures var outcome := Evaluate(username, password);
              && usernameError == (if outcome.UsernameRejected? then outcome.message else "")
              && passwordError == (if outcome.PasswordRejected? then outcome.message else "")
              && (navigated <==> outcome == Accepted)
      ensures usernameError == "" || passwordError == ""
      ensures passwordError != "" ==> UsernamePattern(username) && username !in ExistingUsers
      ensures navigated <==> usernameError == "" && passwordError == ""
    {
      usernameError := "";
      passwordError := "";
      navigated := false;

      if !UsernamePattern(username) {
        usernameError := UsernameFormatMessage;
        return;
      }

      if username in ExistingUsers {
        usernameError := UsernameTakenMessage;
        return;
      }

      if !PasswordPattern(password) {
        passwordError := PasswordFormatMessage;
        return;
      }

      navigated := true;
    }
  }
}
