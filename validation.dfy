/**
 * The registration form check `validateRegister`: one character-class or
 * shape predicate per regular expression of the source, the error each
 * field reports, and the method that builds the error map field by field.
 */
module Validation {
  import opened Wrappers
  import opened Domain

  /** The six inputs of the registration form. */
  datatype RegisterForm = RegisterForm(
    fullName: string,
    login: string,
    email: string,
    phone: string,
    password: string,
    confirmPassword: string)

  /** The keys of the error record, one per form field. */
  datatype Field = FullName | Login | Email | Phone | Password | ConfirmPassword

  /** The messages the error record can hold; `Text` gives the words shown. */
  datatype Message =
    | NameCharset | LoginCharset | LoginInUse | EmailFormat
    | PhoneFormat | PasswordTooShort | PasswordsDiffer

  function Text(m: Message): string
  {
    match m
    case NameCharset => "ФИО должно содержать только кириллицу, пробелы и дефисы"
    case LoginCharset => "Логин должен содержать только латиницу и цифры"
    case LoginInUse => "Этот логин уже занят"
    case EmailFormat => "Неверный формат email"
    case PhoneFormat => "Формат: +7 (XXX)XXX-XX-XX"
    case PasswordTooShort => "Пароль должен содержать минимум 6 символов"
    case PasswordsDiffer => "Пароли не совпадают"
  }

  /** The shortest accepted password. */
  const MinPasswordLength := 6

  // ----- character classes -----

  /** JavaScript's `\s`: the WhiteSpace and LineTerminator code points of ECMAScript. */
  predicate IsWhitespace(c: char)
  {
    var n := c as int;
    || n == 0x09 || n == 0x0A || n == 0x0B || n == 0x0C || n == 0x0D || n == 0x20
    || n == 0xA0 || n == 0x1680 || (0x2000 <= n <= 0x200A)
    || n == 0x2028 || n == 0x2029 || n == 0x202F || n == 0x205F || n == 0x3000 || n == 0xFEFF
  }

  /** `[а-яА-ЯёЁ]`: the 66 letters of the Russian alphabet. */
  predicate IsCyrillicLetter(c: char)
  {
    var n := c as int;
    (0x410 <= n <= 0x44F) || n == 0x401 || n == 0x451
  }

  /** `[a-zA-Z0-9_]`. */
  predicate IsLoginChar(c: char)
  {
    ('a' <= c <= 'z') || ('A' <= c <= 'Z') || ('0' <= c <= '9') || c == '_'
  }

  /** `\d`: an ASCII digit. */
  predicate IsDigit(c: char)
  {
    '0' <= c <= '9'
  }

  /** `[^\s@]`. */
  predicate IsEmailChar(c: char)
  {
    !IsWhitespace(c) && c != '@'
  }

  // ----- the regular expressions -----

  /** `/^[а-яА-ЯёЁ\s-]+$/`. */
  predicate FullNameMatches(s: string)
  {
    |s| > 0 && forall i :: 0 <= i < |s| ==> IsCyrillicLetter(s[i]) || IsWhitespace(s[i]) || s[i] == '-'
  }

  /** `/^[a-zA-Z0-9_]+$/`. */
  predicate LoginMatches(s: string)
  {
    |s| > 0 && forall i :: 0 <= i < |s| ==> IsLoginChar(s[i])
  }

  /** Every character of `s[lo..hi]` is in `[^\s@]`, and there is at least one. */
  predicate EmailRun(s: string, lo: int, hi: int)
    requires 0 <= lo <= hi <= |s|
  {
    lo < hi && forall k :: lo <= k < hi ==> IsEmailChar(s[k])
  }

  /**
   * `/^[^\s@]+@[^\s@]+\.[^\s@]+$/`: `s` splits at an `@` (index `i`) and a
   * later `.` (index `j`) into three non-empty runs of `[^\s@]`.
   */
  predicate EmailMatches(s: string)
  {
    exists i, j :: 0 <= i < j < |s| && s[i] == '@' && s[j] == '.'
      && EmailRun(s, 0, i) && EmailRun(s, i + 1, j) && EmailRun(s, j + 1, |s|)
  }

  /** The phone mask; `#` stands for a digit. */
  const PhoneMask := "+7 (###)###-##-##"

  /** `/^\+7 \(\d{3}\)\d{3}-\d{2}-\d{2}$/`: `s` fits the mask character by character. */
  predicate PhoneMatches(s: string)
  {
    |s| == |PhoneMask| &&
    forall i :: 0 <= i < |s| ==> if PhoneMask[i] == '#' then IsDigit(s[i]) else s[i] == PhoneMask[i]
  }

  // ----- what the form check promises -----

  /** Every check of `validateRegister` passes. */
  predicate FormValid(form: RegisterForm, users: seq<User>)
  {
    && FullNameMatches(form.fullName)
    && LoginMatches(form.login)
    && !LoginTaken(users, form.login)
    && EmailMatches(form.email)
    && PhoneMatches(form.phone)
    && |form.password| >= MinPasswordLength
    && form.password == form.confirmPassword
  }

  /**
   * The message `validateRegister` leaves under key `f`, if any. For the
   * login the "already taken" message wins over the charset message,
   * because it is assigned later.
   */
  function FieldError(f: Field, form: RegisterForm, users: seq<User>): Option<Message>
  {
    match f
    case FullName => if FullNameMatches(form.fullName) then None else Some(NameCharset)
    case Login =>
      if LoginTaken(users, form.login) then Some(LoginInUse)
      else if LoginMatches(form.login) then None
      else Some(LoginCharset)
    case Email => if EmailMatches(form.email) then None else Some(EmailFormat)
    case Phone => if PhoneMatches(form.phone) then None else Some(PhoneFormat)
    case Password => if |form.password| >= MinPasswordLength then None else Some(PasswordTooShort)
    case ConfirmPassword => if form.password == form.confirmPassword then None else Some(PasswordsDiffer)
  }

  /** The entry of an error record under `f`. */
  function Lookup(errors: map<Field, Message>, f: Field): Option<Message>
  {
    if f in errors then Some(errors[f]) else None
  }

  /**
   * `validateRegister`: builds the error record by successive assignments.
   * Each field carries exactly the message its check calls for, a taken
   * login reports "already taken" even when its charset is also wrong, and
   * the record is empty exactly when every check passes.
   */
  method ValidateRegister(form: RegisterForm, users: seq<User>) returns (errors: map<Field, Message>)
    ensures forall f :: Lookup(errors, f) == FieldError(f, form, users)
    ensures LoginTaken(users, form.login) ==> Login in errors && errors[Login] == LoginInUse
    ensures errors == map[] <==> FormValid(form, users)
  {
    errors := map[];
    if !FullNameMatches(form.fullName) {
      errors := errors[FullName := NameCharset];
    }
    if !LoginMatches(form.login) {
      errors := errors[Login := LoginCharset];
    }
    if LoginTaken(users, form.login) {
      errors := errors[Login := LoginInUse];
    }
    if !EmailMatches(form.email) {
      errors := errors[Email := EmailFormat];
    }
    if !PhoneMatches(form.phone) {
      errors := errors[Phone := PhoneFormat];
    }
    if |form.password| < MinPasswordLength {
      errors := errors[Password := PasswordTooShort];
    }
    if form.password != form.confirmPassword {
      errors := errors[ConfirmPassword := PasswordsDiffer];
    }
    ReportIsExact(errors, form, users);
  }

  /**
   * An error record that carries exactly the per-field messages is empty if
   * and only if the whole form is valid.
   */
  lemma ReportIsExact(errors: map<Field, Message>, form: RegisterForm, users: seq<User>)
    requires forall f :: Lookup(errors, f) == FieldError(f, form, users)
    ensures errors == map[] <==> FormValid(form, users)
  {
    if errors == map[] {
      assert Lookup(errors, FullName) == Lookup(errors, Login) == Lookup(errors, Email) == None;
      assert Lookup(errors, Phone) == Lookup(errors, Password) == Lookup(errors, ConfirmPassword) == None;
    } else {
      var f :| f in errors;
      assert Lookup(errors, f) != None;
    }
  }

  // ----- the shapes in plain terms -----

  /** `s` contains no `\s` character. */
  predicate NoWhitespace(s: string)
  {
    forall k :: 0 <= k < |s| ==> !IsWhitespace(s[k])
  }

  /** `d` has a `.` that is neither its first nor its last character. */
  predicate InnerDot(d: string)
  {
    exists j :: 0 < j < |d| - 1 && d[j] == '.'
  }

  /**
   * The email pattern, read as a description: no whitespace, exactly one
   * `@`, something before it, and after it a domain with an inner `.`
   * (the pattern admits several dots).
   */
  predicate EmailDescribed(s: string)
  {
    && NoWhitespace(s)
    && exists at :: 0 < at < |s| && s[at] == '@' && OnlyAt(s, at) && InnerDot(s[at + 1..])
  }

  /** Index `at` holds the only `@` of `s`. */
  predicate OnlyAt(s: string, at: int)
  {
    forall k :: 0 <= k < |s| && s[k] == '@' ==> k == at
  }

  /** The pattern and the description accept the same addresses. */
  lemma EmailShape(s: string)
    ensures EmailMatches(s) <==> EmailDescribed(s)
  {
    if EmailMatches(s) {
      EmailMatchesDescribed(s);
    }
    if EmailDescribed(s) {
      EmailDescribedMatches(s);
    }
  }

  lemma EmailMatchesDescribed(s: string)
    requires EmailMatches(s)
    ensures EmailDescribed(s)
  {
    var i, j :| 0 <= i < j < |s| && s[i] == '@' && s[j] == '.'
      && EmailRun(s, 0, i) && EmailRun(s, i + 1, j) && EmailRun(s, j + 1, |s|);
    forall k | 0 <= k < |s| ensures !IsWhitespace(s[k]) && (s[k] == '@' ==> k == i) {
      if k < i {
        assert EmailRun(s, 0, i);
      } else if i < k < j {
        assert EmailRun(s, i + 1, j);
      } else if j < k {
        assert EmailRun(s, j + 1, |s|);
      }
    }
    assert OnlyAt(s, i);
    assert s[i + 1..][j - i - 1] == '.';
    assert InnerDot(s[i + 1..]);
  }

  lemma EmailDescribedMatches(s: string)
    requires EmailDescribed(s)
    ensures EmailMatches(s)
  {
    var at :| 0 < at < |s| && s[at] == '@' && OnlyAt(s, at) && InnerDot(s[at + 1..]);
    var d := s[at + 1..];
    var j :| 0 < j < |d| - 1 && d[j] == '.';
    var dot := at + 1 + j;
    assert s[dot] == '.';
    assert EmailRun(s, 0, at);
    assert EmailRun(s, at + 1, dot);
    assert EmailRun(s, dot + 1, |s|);
  }

  /** Every character of `s[lo..hi]` is a digit. */
  predicate Digits(s: string, lo: int, hi: int)
    requires 0 <= lo <= hi <= |s|
  {
    forall k :: lo <= k < hi ==> IsDigit(s[k])
  }

  /**
   * The phone mask, read as a description: 17 characters, `+7 (`, three
   * digits, `)`, three digits, `-`, two digits, `-`, two digits.
   */
  lemma PhoneShape(s: string)
    ensures PhoneMatches(s) <==>
      && |s| == 17
      && s[..4] == "+7 (" && Digits(s, 4, 7)
      && s[7] == ')' && Digits(s, 8, 11)
      && s[11] == '-' && Digits(s, 12, 14)
      && s[14] == '-' && Digits(s, 15, 17)
  {
    assert |PhoneMask| == 17;
    if |s| == 17 {
      forall k | 0 <= k < 17
        ensures PhoneMask[k] == '#' <==> (4 <= k < 7 || 8 <= k < 11 || 12 <= k < 14 || 15 <= k < 17)
      {
      }
      if s[..4] == "+7 (" {
        assert s[0] == '+' && s[1] == '7' && s[2] == ' ' && s[3] == '(';
      }
      if PhoneMatches(s) {
        assert s[..4] == "+7 (";
      }
    }
  }

  /** The seeded administrator's own data fits the name, login, email and phone patterns. */
  lemma AdminSeedWellFormed()
    ensures FullNameMatches(Admin.fullName) && LoginMatches(Admin.login)
    ensures EmailMatches(Admin.email) && PhoneMatches(Admin.phone)
  {
    var e := Admin.email;
    assert e[5] == '@' && e[10] == '.';
    assert EmailRun(e, 0, 5) && EmailRun(e, 6, 10) && EmailRun(e, 11, |e|);
  }
}
