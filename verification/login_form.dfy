/** The sign-in / sign-up form: its three field validators, the submit gate
    that decides whether the authentication call is made, the table turning
    authentication error codes into messages, the mode toggle, and the field
    handlers that revalidate as the user types. */
module LoginForm {
  import opened Optional
  import opened Text

  // ---------------------------------------------------------------------
  // Messages

  const EmailRequired := "이메일을 입력해주세요"
  const EmailMalformed := "올바른 이메일 형식이 아닙니다"
  const PasswordRequired := "비밀번호를 입력해주세요"
  const PasswordTooShort := "비밀번호는 최소 6자 이상이어야 합니다"
  const ConfirmRequired := "비밀번호 확인을 입력해주세요"
  const ConfirmMismatch := "비밀번호가 일치하지 않습니다"

  /** The minimum password length, in UTF-16 code units. */
  const MinPasswordLength := 6

  // ---------------------------------------------------------------------
  // E-mail address

  /** `[^\s@]`. */
  predicate EmailChar(c: char) {
    !IsWs(c) && c != '@'
  }

  predicate EmailChars(s: string) {
    forall i :: 0 <= i < |s| ==> EmailChar(s[i])
  }

  /** `/^[^\s@]+@[^\s@]+\.[^\s@]+$/.test(s)`, read as the regular expression
      reads: some `@` at `a` and some `.` at `b` split `s` into three
      non-empty runs of characters that are neither whitespace nor `@`. */
  ghost predicate MatchesEmailPattern(s: string) {
    exists a, b :: 0 < a && a + 1 < b && b + 1 < |s| && s[a] == '@' && s[b] == '.'
      && EmailChars(s[..a]) && EmailChars(s[a + 1..b]) && EmailChars(s[b + 1..])
  }

  function CountChar(s: string, c: char): nat {
    if s == [] then 0 else (if s[0] == c then 1 else 0) + CountChar(s[1..], c)
  }

  lemma {:induction false} CountCharAppend(x: string, y: string, c: char)
    ensures CountChar(x + y, c) == CountChar(x, c) + CountChar(y, c)
    decreases |x|
  {
    if x == [] {
      assert x + y == y;
    } else {
      assert (x + y)[1..] == x[1..] + y;
      CountCharAppend(x[1..], y, c);
    }
  }

  lemma {:induction false} CountCharAbsent(s: string, c: char)
    requires forall i :: 0 <= i < |s| ==> s[i] != c
    ensures CountChar(s, c) == 0
    decreases |s|
  {
    if s != [] {
      CountCharAbsent(s[1..], c);
    }
  }

  lemma {:induction false} CountCharPresent(s: string, c: char, i: nat)
    requires i < |s| && s[i] == c
    ensures CountChar(s, c) >= 1
    decreases |s|
  {
    if i > 0 {
      CountCharPresent(s[1..], c, i - 1);
    }
  }

  /** Two occurrences count twice. */
  lemma {:induction false} CountCharTwo(s: string, c: char, i: nat, j: nat)
    requires i < j < |s| && s[i] == c && s[j] == c
    ensures CountChar(s, c) >= 2
    decreases |s|
  {
    if i == 0 {
      CountCharPresent(s[1..], c, j - 1);
    } else {
      CountCharTwo(s[1..], c, i - 1, j - 1);
    }
  }

  /** The first position of `c` in `s`. */
  function IndexOf(s: string, c: char): (k: nat)
    requires c in s
    ensures k < |s| && s[k] == c
    ensures forall j :: 0 <= j < k ==> s[j] != c
  {
    if s[0] == c then 0 else 1 + IndexOf(s[1..], c)
  }

  /** The address check spelled out: no whitespace, exactly one `@`, a
      non-empty part before it, and after it a domain that has a `.` which is
      neither its first nor its last character. */
  predicate WellFormedEmail(s: string) {
    && (forall i :: 0 <= i < |s| ==> !IsWs(s[i]))
    && CountChar(s, '@') == 1
    && '@' in s
    && var a := IndexOf(s, '@');
       var domain := s[a + 1..];
       && a > 0
       && exists k :: 0 < k < |domain| - 1 && domain[k] == '.'
  }

  /** The spelled-out check and the regular expression accept the same
      strings. */
  lemma WellFormedEmailIffPattern(s: string)
    ensures WellFormedEmail(s) <==> MatchesEmailPattern(s)
  {
    if MatchesEmailPattern(s) {
      var a, b :| 0 < a && a + 1 < b && b + 1 < |s| && s[a] == '@' && s[b] == '.'
        && EmailChars(s[..a]) && EmailChars(s[a + 1..b]) && EmailChars(s[b + 1..]);
      PatternIsWellFormed(s, a, b);
    }
    if WellFormedEmail(s) {
      WellFormedIsPattern(s);
    }
  }

  lemma PatternIsWellFormed(s: string, a: nat, b: nat)
    requires 0 < a && a + 1 < b && b + 1 < |s| && s[a] == '@' && s[b] == '.'
    requires EmailChars(s[..a]) && EmailChars(s[a + 1..b]) && EmailChars(s[b + 1..])
    ensures WellFormedEmail(s)
  {
    forall i | 0 <= i < |s| ensures !IsWs(s[i]) && (i != a ==> s[i] != '@') {
      if i < a { assert s[i] == s[..a][i]; }
      else if a < i < b { assert s[i] == s[a + 1..b][i - a - 1]; }
      else if b < i { assert s[i] == s[b + 1..][i - b - 1]; }
    }
    OnlyOneAt(s, a);
    assert IndexOf(s, '@') == a;
    var domain := s[a + 1..];
    assert domain[b - a - 1] == '.';
  }

  lemma OnlyOneAt(s: string, a: nat)
    requires a < |s| && s[a] == '@'
    requires forall i :: 0 <= i < |s| && i != a ==> s[i] != '@'
    ensures CountChar(s, '@') == 1
  {
    assert s == s[..a] + [s[a]] + s[a + 1..];
    CountCharAbsent(s[..a], '@');
    CountCharAbsent(s[a + 1..], '@');
    CountCharAppend(s[..a] + [s[a]], s[a + 1..], '@');
    CountCharAppend(s[..a], [s[a]], '@');
  }

  lemma WellFormedIsPattern(s: string)
    requires WellFormedEmail(s)
    ensures MatchesEmailPattern(s)
  {
    var a := IndexOf(s, '@');
    var domain := s[a + 1..];
    var k :| 0 < k < |domain| - 1 && domain[k] == '.';
    var b := a + 1 + k;
    assert s[b] == '.';
    forall i | 0 <= i < |s| && i != a ensures EmailChar(s[i]) {
      if a < i && s[i] == '@' {
        CountCharTwo(s, '@', a, i);
      }
    }
    assert EmailChars(s[..a]);
    assert EmailChars(s[a + 1..b]);
    assert EmailChars(s[b + 1..]);
  }

  /** `validateEmail(value)`. */
  function ValidateEmail(v: string): (r: string)
    ensures r == EmailRequired <==> v == ""
    ensures r == "" <==> v != "" && MatchesEmailPattern(v)
    ensures r == EmailMalformed <==> v != "" && !MatchesEmailPattern(v)
  {
    WellFormedEmailIffPattern(v);
    if v == "" then EmailRequired
    else if !WellFormedEmail(v) then EmailMalformed
    else ""
  }

  // ---------------------------------------------------------------------
  // Password and confirmation

  /** `validatePassword(value)`; `value.length` counts UTF-16 code units. */
  function ValidatePassword(v: string): (r: string)
    ensures r == PasswordRequired <==> v == ""
    ensures r == PasswordTooShort <==> 1 <= Utf16Length(v) < MinPasswordLength
    ensures r == "" <==> Utf16Length(v) >= MinPasswordLength
  {
    if v == "" then PasswordRequired
    else if Utf16Length(v) < MinPasswordLength then PasswordTooShort
    else ""
  }

  /** Any password of six or more characters passes, and none of two or
      fewer does; between those, characters outside the Basic Multilingual
      Plane count twice. */
  lemma PasswordLengthBounds(v: string)
    ensures |v| >= 6 ==> ValidatePassword(v) == ""
    ensures 1 <= |v| <= 2 ==> ValidatePassword(v) == PasswordTooShort
  {
  }

  /** Three emoji make a long-enough password: JavaScript sees six code
      units. */
  lemma ThreeAstralCharactersPass()
    ensures ValidatePassword(['\U{1F600}', '\U{1F600}', '\U{1F600}']) == ""
  {
    var v := ['\U{1F600}', '\U{1F600}', '\U{1F600}'];
    assert v[..2] == ['\U{1F600}', '\U{1F600}'] && v[..2][..1] == ['\U{1F600}'];
    assert Utf16Length(v) == 6;
  }

  /** `validatePasswordConfirm(value)`, compared against the password the
      closure sees. */
  function ValidatePasswordConfirm(confirm: string, password: string): (r: string)
    ensures r == ConfirmRequired <==> confirm == ""
    ensures r == ConfirmMismatch <==> confirm != "" && confirm != password
    ensures r == "" <==> confirm != "" && confirm == password
  {
    if confirm == "" then ConfirmRequired
    else if confirm != password then ConfirmMismatch
    else ""
  }

  // ---------------------------------------------------------------------
  // Authentication error messages

  const GenericFailure := "오류가 발생했습니다. 다시 시도해주세요"
  const GoogleFailure := "Google 로그인에 실패했습니다."

  /** The table of `getErrorMessage`. */
  const ErrorMessages: map<string, string> := map[
    "auth/user-not-found" := "등록된 이메일이 없습니다",
    "auth/wrong-password" := "비밀번호가 올바르지 않습니다",
    "auth/email-already-in-use" := "이미 사용 중인 이메일입니다",
    "auth/weak-password" := "비밀번호가 너무 약합니다. 6자 이상 입력해주세요",
    "auth/invalid-email" := "올바른 이메일 형식이 아닙니다",
    "auth/too-many-requests" := "너무 많은 요청이 있었습니다. 잠시 후 다시 시도해주세요",
    "auth/network-request-failed" := "네트워크 연결을 확인해주세요",
    "auth/popup-closed-by-user" := "로그인 팝업이 닫혔습니다"
  ]

  /** `getErrorMessage(code)`: `errorMessages[code] || fallback`. It never
      yields the empty string. */
  function GetErrorMessage(code: string): (r: string)
    ensures r != ""
    ensures code in ErrorMessages ==> r == ErrorMessages[code]
    ensures code !in ErrorMessages ==> r == GenericFailure
  {
    var looked := if code in ErrorMessages then ErrorMessages[code] else "";
    if looked != "" then looked else GenericFailure
  }

  /** `err.code || ""`. */
  function ErrorCode(code: Option<string>): (r: string)
    ensures r == "" <==> code == None || code == Some("")
    ensures code.Some? ==> r == code.value
  {
    code.GetOr("")
  }

  /** The error shown when Google sign-in fails:
      `getErrorMessage(code) || "Google ..."`. Its fallback can never be
      chosen, since the message table never answers "". */
  function GoogleSignInError(code: Option<string>): (r: string)
    ensures r == GetErrorMessage(ErrorCode(code))
    ensures r != GoogleFailure
  {
    var friendly := GetErrorMessage(ErrorCode(code));
    if friendly != "" then friendly else GoogleFailure
  }

  // ---------------------------------------------------------------------
  // Form state

  datatype Touched = Touched(email: bool, password: bool, passwordConfirm: bool)

  const Untouched := Touched(false, false, false)

  datatype FormState = FormState(
    isSignUp: bool,
    email: string,
    password: string,
    passwordConfirm: string,
    error: string,
    showPassword: bool,
    showPasswordConfirm: bool,
    emailError: string,
    passwordError: string,
    passwordConfirmError: string,
    touched: Touched)

  /** The form as it first renders: sign-in mode, everything empty. */
  const InitialForm := FormState(false, "", "", "", "", false, false, "", "", "", Untouched)

  /** The authentication call a submit makes. */
  datatype AuthRequest = SignUp(email: string, password: string) | SignIn(email: string, password: string)

  /** `handleSubmit`: marks the fields touched, validates them, and calls the
      authentication service only when no validator reported an error. */
  function Submit(s: FormState): (r: (FormState, Option<AuthRequest>))
    ensures var (t, request) := r;
      && t.touched == Touched(true, true, s.isSignUp)
      && t.error == ""
      && t.emailError == ValidateEmail(s.email)
      && t.passwordError == ValidatePassword(s.password)
      && (!s.isSignUp ==> t.passwordConfirmError == "")
      && (s.isSignUp ==> t.passwordConfirmError == ValidatePasswordConfirm(s.passwordConfirm, s.password))
      && (request.Some? <==>
            && MatchesEmailPattern(s.email)
            && Utf16Length(s.password) >= MinPasswordLength
            && (s.isSignUp ==> s.passwordConfirm == s.password))
      && (request.Some? <==> t.emailError == "" && t.passwordError == "" && t.passwordConfirmError == "")
      && (request.Some? ==> request.value == if s.isSignUp then SignUp(s.email, s.password) else SignIn(s.email, s.password))
      && t.(touched := s.touched, error := s.error, emailError := s.emailError,
            passwordError := s.passwordError, passwordConfirmError := s.passwordConfirmError) == s
  {
    var emailErr := ValidateEmail(s.email);
    var passwordErr := ValidatePassword(s.password);
    var confirmErr := if s.isSignUp then ValidatePasswordConfirm(s.passwordConfirm, s.password) else "";
    var t := s.(error := "", touched := Touched(true, true, s.isSignUp),
                emailError := emailErr, passwordError := passwordErr, passwordConfirmError := confirmErr);
    if emailErr != "" || passwordErr != "" || confirmErr != "" then (t, None)
    else (t, Some(if s.isSignUp then SignUp(s.email, s.password) else SignIn(s.email, s.password)))
  }

  /** The `catch` of `handleSubmit`: the failed call's code becomes the
      message shown. */
  function AuthFailed(s: FormState, code: Option<string>): (r: FormState)
    ensures r.error != ""
    ensures r.error == GetErrorMessage(ErrorCode(code))
    ensures r.(error := s.error) == s
  {
    s.(error := GetErrorMessage(ErrorCode(code)))
  }

  /** The "switch between sign-in and sign-up" button. */
  function ToggleMode(s: FormState): (r: FormState)
    ensures r.isSignUp == !s.isSignUp
    ensures r.error == "" && r.emailError == "" && r.passwordError == "" && r.passwordConfirmError == ""
    ensures r.passwordConfirm == ""
    ensures !r.showPassword && !r.showPasswordConfirm && r.touched == Untouched
    ensures r.email == s.email && r.password == s.password
  {
    s.(isSignUp := !s.isSignUp, error := "", emailError := "", passwordError := "",
       passwordConfirmError := "", passwordConfirm := "", showPassword := false,
       showPasswordConfirm := false, touched := Untouched)
  }

  /** Switching twice returns to the original mode with the form reset, and
      only the e-mail address and password survive: a second round trip
      changes nothing further. */
  lemma ToggleModeTwice(s: FormState)
    ensures ToggleMode(ToggleMode(s)).isSignUp == s.isSignUp
    ensures ToggleMode(ToggleMode(s)) ==
      InitialForm.(isSignUp := s.isSignUp, email := s.email, password := s.password)
    ensures ToggleMode(ToggleMode(ToggleMode(ToggleMode(s)))) == ToggleMode(ToggleMode(s))
  {
  }

  // ---------------------------------------------------------------------
  // Field handlers

  /** The e-mail input's change handler: revalidates once the field has been
      touched. */
  function OnEmailChange(s: FormState, v: string): (r: FormState)
    ensures r.email == v
    ensures s.touched.email ==> r.emailError == ValidateEmail(v)
    ensures !s.touched.email ==> r.emailError == s.emailError
    ensures r.(email := s.email, emailError := s.emailError) == s
  {
    s.(email := v, emailError := if s.touched.email then ValidateEmail(v) else s.emailError)
  }

  /** The e-mail input's blur handler. */
  function OnEmailBlur(s: FormState): (r: FormState)
    ensures r.touched.email && r.emailError == ValidateEmail(s.email)
    ensures r.(touched := s.touched, emailError := s.emailError) == s
  {
    s.(touched := s.touched.(email := true), emailError := ValidateEmail(s.email))
  }

  /** The confirmation shown is the one for the current fields. */
  predicate ConfirmErrorCurrent(s: FormState) {
    s.touched.passwordConfirm && s.passwordConfirm != "" ==>
      s.passwordConfirmError == ValidatePasswordConfirm(s.passwordConfirm, s.password)
  }

  /** The password input's change handler as written: the confirmation is
      revalidated against the password of the previous render, because the
      validator reads the password from its closure, not the new value. */
  function OnPasswordChangeAsWritten(s: FormState, v: string): (r: FormState)
    ensures r.password == v
    ensures s.touched.password ==> r.passwordError == ValidatePassword(v)
    ensures !s.touched.password ==> r.passwordError == s.passwordError
    ensures s.touched.passwordConfirm && s.passwordConfirm != "" ==>
      r.passwordConfirmError == ValidatePasswordConfirm(s.passwordConfirm, s.password)
    ensures !(s.touched.passwordConfirm && s.passwordConfirm != "") ==>
      r.passwordConfirmError == s.passwordConfirmError
    ensures r.(password := s.password, passwordError := s.passwordError,
               passwordConfirmError := s.passwordConfirmError) == s
  {
    s.(password := v,
       passwordError := if s.touched.password then ValidatePassword(v) else s.passwordError,
       passwordConfirmError :=
         if s.touched.passwordConfirm && s.passwordConfirm != ""
         then ValidatePasswordConfirm(s.passwordConfirm, s.password)
         else s.passwordConfirmError)
  }

  /** A password typed to match the confirmation still shows "passwords do
      not match". */
  lemma StaleConfirmationCounterexample()
    ensures
      var s := InitialForm.(isSignUp := true, password := "abcdef", passwordConfirm := "abcdefg",
                            passwordConfirmError := ConfirmMismatch, touched := Touched(true, true, true));
      var r := OnPasswordChangeAsWritten(s, "abcdefg");
      && ConfirmErrorCurrent(s)
      && r.password == r.passwordConfirm
      && r.passwordConfirmError == ConfirmMismatch
      && !ConfirmErrorCurrent(r)
  {
  }

  /** The password input's change handler, validating the confirmation
      against the new password. */
  function OnPasswordChange(s: FormState, v: string): (r: FormState)
    ensures r.password == v
    ensures s.touched.password ==> r.passwordError == ValidatePassword(v)
    ensures !s.touched.password ==> r.passwordError == s.passwordError
    ensures s.touched.passwordConfirm && s.passwordConfirm != "" ==>
      r.passwordConfirmError == ValidatePasswordConfirm(s.passwordConfirm, v)
    ensures !(s.touched.passwordConfirm && s.passwordConfirm != "") ==>
      r.passwordConfirmError == s.passwordConfirmError
    ensures ConfirmErrorCurrent(s) ==> ConfirmErrorCurrent(r)
    ensures r.touched.passwordConfirm && r.passwordConfirm != "" ==>
      (r.passwordConfirmError == "" <==> r.passwordConfirm == r.password)
    ensures r.(password := s.password, passwordError := s.passwordError,
               passwordConfirmError := s.passwordConfirmError) == s
  {
    s.(password := v,
       passwordError := if s.touched.password then ValidatePassword(v) else s.passwordError,
       passwordConfirmError :=
         if s.touched.passwordConfirm && s.passwordConfirm != ""
         then ValidatePasswordConfirm(s.passwordConfirm, v)
         else s.passwordConfirmError)
  }

  /** The password input's blur handler. */
  function OnPasswordBlur(s: FormState): (r: FormState)
    ensures r.touched.password && r.passwordError == ValidatePassword(s.password)
    ensures r.(touched := s.touched, passwordError := s.passwordError) == s
  {
    s.(touched := s.touched.(password := true), passwordError := ValidatePassword(s.password))
  }

  /** The confirmation input's change handler. */
  function OnConfirmChange(s: FormState, v: string): (r: FormState)
    ensures r.passwordConfirm == v
    ensures s.touched.passwordConfirm ==> r.passwordConfirmError == ValidatePasswordConfirm(v, s.password)
    ensures !s.touched.passwordConfirm ==> r.passwordConfirmError == s.passwordConfirmError
    ensures ConfirmErrorCurrent(r) || !s.touched.passwordConfirm
    ensures r.(passwordConfirm := s.passwordConfirm, passwordConfirmError := s.passwordConfirmError) == s
  {
    s.(passwordConfirm := v,
       passwordConfirmError :=
         if s.touched.passwordConfirm then ValidatePasswordConfirm(v, s.password) else s.passwordConfirmError)
  }

  /** The confirmation input's blur handler. */
  function OnConfirmBlur(s: FormState): (r: FormState)
    ensures r.touched.passwordConfirm
    ensures r.passwordConfirmError == ValidatePasswordConfirm(s.passwordConfirm, s.password)
    ensures ConfirmErrorCurrent(r)
    ensures r.(touched := s.touched, passwordConfirmError := s.passwordConfirmError) == s
  {
    s.(touched := s.touched.(passwordConfirm := true),
       passwordConfirmError := ValidatePasswordConfirm(s.passwordConfirm, s.password))
  }
}
