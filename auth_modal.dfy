/** The sign-in/registration dialog of app/components/UI/AuthModal.tsx: the password-strength
    meter and the submission of the form. The call to the authentication provider is returned as
    a request and its outcome handed back in, because the provider the dialog imports,
    lib/AuthContext.tsx, is not part of this model. */
module AuthModal {
  import opened Basics
  import opened I18n

  predicate IsUpper(c: char) { 'A' <= c <= 'Z' }
  predicate IsDigitChar(c: char) { '0' <= c <= '9' }
  predicate IsAlphanumeric(c: char) { IsUpper(c) || IsDigitChar(c) || 'a' <= c <= 'z' }

  /** `/[A-Z]/.test(p)`. */
  predicate HasUpper(p: string) { exists i :: 0 <= i < |p| && IsUpper(p[i]) }
  /** `/[0-9]/.test(p)`. */
  predicate HasDigit(p: string) { exists i :: 0 <= i < |p| && IsDigitChar(p[i]) }
  /** `/[^A-Za-z0-9]/.test(p)`. */
  predicate HasSymbol(p: string) { exists i :: 0 <= i < |p| && !IsAlphanumeric(p[i]) }

  function Point(b: bool): nat { if b then 1 else 0 }

  /** The number of the five criteria the password meets. */
  function RawScore(p: string): (n: nat)
    ensures n <= 5
  {
    Point(|p| >= 6) + Point(|p| >= 10) + Point(HasUpper(p)) + Point(HasDigit(p)) + Point(HasSymbol(p))
  }

  /** The meter level: 0 for no password, else 1 (weak) for at most two criteria, 2 (medium) for
      three or four, 3 (strong) for all five. */
  function Level(p: string): (level: nat)
    ensures p == "" <==> level == 0
    ensures p != "" ==> 1 <= level <= 3
  {
    if p == "" then 0
    else if RawScore(p) <= 2 then 1
    else if RawScore(p) <= 4 then 2
    else 3
  }

  /** `passwordStrength`: the counter raised once per criterion met, then mapped to a level. */
  method PasswordStrength(password: string) returns (level: nat)
    ensures level == Level(password)
  {
    if password == "" {
      return 0;
    }
    var strength := 0;
    if |password| >= 6 { strength := strength + 1; }
    if |password| >= 10 { strength := strength + 1; }
    if HasUpper(password) { strength := strength + 1; }
    if HasDigit(password) { strength := strength + 1; }
    if HasSymbol(password) { strength := strength + 1; }
    if strength <= 2 {
      level := 1;
    } else if strength <= 4 {
      level := 2;
    } else {
      level := 3;
    }
  }

  /** Strong means every criterion: ten characters or more, an upper-case letter, a digit and a
      symbol. */
  lemma StrongIffAll(p: string)
    ensures Level(p) == 3 <==> |p| >= 10 && HasUpper(p) && HasDigit(p) && HasSymbol(p)
  {
    if |p| >= 10 {
      assert p != "";
    }
  }

  /** A password shorter than six characters is never strong. */
  lemma ShortNotStrong(p: string)
    requires |p| < 6
    ensures Level(p) <= 2
  {
  }

  /** A password of lower-case letters only is weak at any length: length gives two points at
      most. */
  lemma LowerCaseOnly(p: string)
    requires p != [] && forall i :: 0 <= i < |p| ==> 'a' <= p[i] <= 'z'
    ensures Level(p) == 1
  {
    assert !HasUpper(p) && !HasDigit(p);
    assert !HasSymbol(p) by {
      forall i | 0 <= i < |p| ensures IsAlphanumeric(p[i]) {
      }
    }
  }

  /** `strengthColor`: red, yellow, green, and the neutral bar for any other level. */
  function StrengthColor(level: nat): (r: string)
    ensures level == 0 ==> r == "bg-zinc-200 dark:bg-zinc-700"
    ensures 1 <= level <= 3 ==> r != "bg-zinc-200 dark:bg-zinc-700"
  {
    if level == 1 then "bg-red-500"
    else if level == 2 then "bg-yellow-500"
    else if level == 3 then "bg-green-500"
    else "bg-zinc-200 dark:bg-zinc-700"
  }

  /** The four bars differ from one another. */
  lemma StrengthColorsDistinct(a: nat, b: nat)
    requires a <= 3 && b <= 3 && a != b
    ensures StrengthColor(a) != StrengthColor(b)
  {
  }

  /** `strengthLabel`: the translated word for levels 1 to 3, and nothing for any other level. */
  function StrengthLabel(level: nat, language: Language): (r: string)
    ensures level == 0 ==> r == ""
    ensures 1 <= level <= 3 ==> r != ""
  {
    if level == 1 then Translated(Translations, language, "strength_weak", [])
    else if level == 2 then Translated(Translations, language, "strength_medium", [])
    else if level == 3 then Translated(Translations, language, "strength_strong", [])
    else ""
  }

  /** The English and German words of the meter. */
  lemma StrengthWords()
    ensures StrengthLabel(1, En) == "Weak" && StrengthLabel(2, En) == "Medium" && StrengthLabel(3, En) == "Strong"
    ensures StrengthLabel(1, De) == "Schwach" && StrengthLabel(2, De) == "Mittel" && StrengthLabel(3, De) == "Stark"
  {
  }

  /** The call the dialog makes on the authentication provider. */
  datatype AuthRequest = LoginRequest(email: string, password: string)
                       | RegisterRequest(name: string, email: string, password: string)

  class AuthForm {
    var isLogin: bool
    var email: string
    var password: string
    var confirmPassword: string
    var name: string
    var error: string
    var loading: bool

    /** An empty dialog in sign-in mode. */
    constructor()
      ensures isLogin && email == "" && password == "" && confirmPassword == "" && name == ""
      ensures error == "" && !loading
    {
      isLogin := true;
      email := "";
      password := "";
      confirmPassword := "";
      name := "";
      error := "";
      loading := false;
    }

    /** The synchronous part of `handleSubmit`: the error is cleared; in registration mode a
        confirmation that differs from the password sets the mismatch message and nothing is
        called; otherwise the dialog starts loading and calls `login` or `register`. */
    method Submit(language: Language) returns (request: Option<AuthRequest>)
      modifies this
      ensures !isLogin && password != confirmPassword ==>
                request.None? && error == Translated(Translations, language, "passwords_not_matching", [])
                && loading == old(loading)
      ensures isLogin ==> request == Some(LoginRequest(email, password)) && error == "" && loading
      ensures !isLogin && password == confirmPassword ==>
                request == Some(RegisterRequest(name, email, password)) && error == "" && loading
      ensures isLogin == old(isLogin) && email == old(email) && password == old(password)
      ensures confirmPassword == old(confirmPassword) && name == old(name)
    {
      error := "";
      if !isLogin && password != confirmPassword {
        error := Translated(Translations, language, "passwords_not_matching", []);
        return None;
      }
      loading := true;
      if isLogin {
        request := Some(LoginRequest(email, password));
      } else {
        request := Some(RegisterRequest(name, email, password));
      }
    }

    /** The continuation after the call: success closes the dialog; a failure shows its message,
        or a generic one when the message is empty; loading ends either way. */
    method Settle(failure: Option<string>) returns (close: bool)
      modifies this
      ensures close <==> failure.None?
      ensures failure.None? ==> error == old(error)
      ensures failure.Some? ==> error == if failure.value == "" then "Something went wrong" else failure.value
      ensures !loading
      ensures isLogin == old(isLogin) && email == old(email) && password == old(password)
      ensures confirmPassword == old(confirmPassword) && name == old(name)
    {
      if failure.Some? {
        error := if failure.value == "" then "Something went wrong" else failure.value;
        close := false;
      } else {
        close := true;
      }
      loading := false;
    }
  }

  /** Registration with a mistyped confirmation, in English: the message says so and no account
      is requested. */
  method MismatchScenario(name: string, email: string, password: string, confirm: string)
      returns (request: Option<AuthRequest>, message: string)
    requires password != confirm
    ensures request.None? && message == "Passwords do not match"
  {
    var form := new AuthForm();
    form.isLogin := false;
    form.name, form.email, form.password, form.confirmPassword := name, email, password, confirm;
    request := form.Submit(En);
    message := form.error;
  }
}
