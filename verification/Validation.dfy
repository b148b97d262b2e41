/** `validateField` of the Add-user modal (create rules) and of the Edit-user
    modal (edit rules). Each returns the error message for a field value, or
    the empty string when the value is accepted. */
module Validation {
  import opened Text

  /** The field names the modals pass to `validateField`. */
  datatype Field = Name | Email | Password | Title | Description

  const MaxCreateNameLength := 30
  const MaxCreateTitleLength := 30
  const MaxCreateDescriptionLength := 100
  const MaxEditTitleLength := 50
  const MaxEditDescriptionLength := 200
  const MinPasswordLength := 8

  // Messages of the Add-user modal.
  const NameRequired := "El nombre es obligatorio."
  const NameTooLong := "El nombre no puede tener más de 30 caracteres."
  const EmailInvalid := "El email no es válido."
  const PasswordInvalid := "La contraseña debe tener al menos 8 caracteres, una letra mayúscula y un número."
  const TitleRequired := "El título de la tarea es obligatorio."
  const TitleTooLong := "El título no puede tener más de 30 caracteres."
  const DescriptionRequired := "La descripción de la tarea es obligatoria."
  const DescriptionTooLong := "La descripción no puede tener más de 100 caracteres."

  // Messages of the Edit-user modal.
  const EditNameRequired := "El nombre es obligatorio"
  const EditEmailInvalid := "El email no es válido"
  const EditTitleTooLong := "El título no puede exceder 50 caracteres"
  const EditDescriptionTooLong := "La descripción no puede exceder 200 caracteres"

  // ---------------------------------------------------------------------
  // The email pattern /^[^\s@]+@[^\s@]+\.[^\s@]+$/

  /** The character class `[^\s@]`. */
  predicate IsSegmentChar(c: char) {
    !IsSpace(c) && c != '@'
  }

  predicate AllSegmentChars(t: string) {
    forall k :: 0 <= k < |t| ==> IsSegmentChar(t[k])
  }

  /** The pattern read literally: a non-empty run of `[^\s@]`, an `@`, a
      non-empty run, a `.`, and a final non-empty run, covering the whole
      string. */
  ghost predicate MatchesEmailPattern(s: string) {
    exists i, j ::
      && 0 < i && i + 1 < j && j + 1 < |s|
      && s[i] == '@' && s[j] == '.'
      && AllSegmentChars(s[..i]) && AllSegmentChars(s[i + 1..j]) && AllSegmentChars(s[j + 1..])
  }

  /** Position of the first `c` in `s`, or `|s|` when there is none. */
  function IndexOf(s: string, c: char): (i: nat)
    ensures i <= |s|
    ensures i < |s| ==> s[i] == c
    ensures forall k :: 0 <= k < i ==> s[k] != c
  {
    if s == [] then 0
    else if s[0] == c then 0
    else 1 + IndexOf(s[1..], c)
  }

  /** The email check as an address reading: no whitespace, exactly one `@`,
      a non-empty local part, and a domain holding a `.` with at least one
      character before it and one after it. */
  predicate ValidEmail(s: string) {
    var at := IndexOf(s, '@');
    && NoSpace(s)
    && 0 < at < |s|
    && '@' !in s[at + 1..]
    && var domain := s[at + 1..];
       |domain| >= 3 && '.' in domain[1..|domain| - 1]
  }

  /** No whitespace anywhere: the pattern has no class that admits it. */
  predicate NoSpace(s: string) {
    forall k :: 0 <= k < |s| ==> !IsSpace(s[k])
  }

  lemma ValidEmailMatchesPattern(s: string)
    requires ValidEmail(s)
    ensures MatchesEmailPattern(s)
  {
    var at := IndexOf(s, '@');
    var domain := s[at + 1..];
    var m :| 0 <= m < |domain| - 2 && domain[1..|domain| - 1][m] == '.';
    var j := at + 2 + m;
    assert s[j] == '.';
    assert AllSegmentChars(s[..at]) by {
      forall k | 0 <= k < at ensures IsSegmentChar(s[..at][k]) {
        assert s[..at][k] == s[k];
      }
    }
    assert AllSegmentChars(domain) by {
      forall k | 0 <= k < |domain| ensures IsSegmentChar(domain[k]) {
        assert domain[k] == s[at + 1 + k];
        assert domain[k] in domain;
      }
    }
    var middle, last := s[at + 1..j], s[j + 1..];
    assert AllSegmentChars(middle) by {
      forall k | 0 <= k < |middle| ensures IsSegmentChar(middle[k]) {
        assert middle[k] == domain[k];
      }
    }
    assert AllSegmentChars(last) by {
      forall k | 0 <= k < |last| ensures IsSegmentChar(last[k]) {
        assert last[k] == domain[j - at + k];
      }
    }
    assert 0 < at && at + 1 < j && j + 1 < |s| && s[at] == '@';
  }

  lemma PatternMatchIsValidEmail(s: string, i: int, j: int)
    requires 0 < i && i + 1 < j && j + 1 < |s|
    requires s[i] == '@' && s[j] == '.'
    requires AllSegmentChars(s[..i]) && AllSegmentChars(s[i + 1..j]) && AllSegmentChars(s[j + 1..])
    ensures ValidEmail(s)
  {
    assert forall k :: 0 <= k < i ==> s[k] == s[..i][k];
    assert IndexOf(s, '@') == i;
    var domain := s[i + 1..];
    assert domain == s[i + 1..j] + [s[j]] + s[j + 1..];
    assert AllSegmentChars(domain) by {
      forall k | 0 <= k < |domain| ensures IsSegmentChar(domain[k]) {
        if k < j - i - 1 {
          assert domain[k] == s[i + 1..j][k];
        } else if k > j - i - 1 {
          assert domain[k] == s[j + 1..][k - (j - i)];
        }
      }
    }
    assert '@' !in domain;
    assert NoSpace(s) by {
      forall k | 0 <= k < |s| ensures !IsSpace(s[k]) {
        if k < i {
          assert s[k] == s[..i][k];
        } else if k > i {
          assert s[k] == domain[k - i - 1];
        }
      }
    }
    assert domain[1..|domain| - 1][j - i - 2] == '.';
  }

  /** The address reading and the literal reading of the pattern accept the
      same strings. */
  lemma EmailValidIffPattern(s: string)
    ensures ValidEmail(s) <==> MatchesEmailPattern(s)
  {
    if ValidEmail(s) {
      ValidEmailMatchesPattern(s);
    }
    if MatchesEmailPattern(s) {
      var i, j :|
        && 0 < i && i + 1 < j && j + 1 < |s|
        && s[i] == '@' && s[j] == '.'
        && AllSegmentChars(s[..i]) && AllSegmentChars(s[i + 1..j]) && AllSegmentChars(s[j + 1..]);
      PatternMatchIsValidEmail(s, i, j);
    }
  }

  // ---------------------------------------------------------------------
  // The password pattern /^(?=.*[A-Z])(?=.*\d)[A-Za-z\d]{8,}$/

  predicate IsAsciiUpper(c: char) { 'A' <= c <= 'Z' }
  predicate IsAsciiLower(c: char) { 'a' <= c <= 'z' }
  /** `\d`, which in JavaScript is only `0`-`9`. */
  predicate IsAsciiDigit(c: char) { '0' <= c <= '9' }
  predicate IsAsciiAlnum(c: char) { IsAsciiLower(c) || IsAsciiUpper(c) || IsAsciiDigit(c) }

  /** A lookahead `(?=.*[X])` at the start: some character of class `X`
      occurs with no line terminator before it (`.` skips none). */
  ghost predicate LookaheadFinds(s: string, inClass: char -> bool) {
    exists k :: 0 <= k < |s| && inClass(s[k]) && forall m :: 0 <= m < k ==> !IsLineTerminator(s[m])
  }

  /** The password check: eight characters or more, every one an ASCII letter
      or digit, at least one upper-case letter and at least one digit. Any
      other character, a symbol included, makes it fail. */
  function ValidPassword(s: string): (b: bool)
    ensures b <==> LookaheadFinds(s, IsAsciiUpper) && LookaheadFinds(s, IsAsciiDigit)
                   && |s| >= MinPasswordLength && forall k :: 0 <= k < |s| ==> IsAsciiAlnum(s[k])
  {
    && |s| >= MinPasswordLength
    && (forall k :: 0 <= k < |s| ==> IsAsciiAlnum(s[k]))
    && (exists k :: 0 <= k < |s| && IsAsciiUpper(s[k]))
    && (exists k :: 0 <= k < |s| && IsAsciiDigit(s[k]))
  }

  // ---------------------------------------------------------------------
  // The two validators

  /** The shape of the name, title and description checks of the Add-user
      modal: a blank value gets the "required" message, a non-blank one
      longer than `maxLength` code units the "too long" message, and any
      other value none. */
  function RequiredText(value: string, maxLength: nat, required: string, tooLong: string): (msg: string)
    requires required != "" && tooLong != ""
    ensures msg == "" <==> HasVisibleChar(value) && JsLength(value) <= maxLength
    ensures !HasVisibleChar(value) ==> msg == required
    ensures HasVisibleChar(value) && JsLength(value) > maxLength ==> msg == tooLong
  {
    if IsBlank(value) then required
    else if JsLength(value) > maxLength then tooLong
    else ""
  }

  /** The title and description checks of the Edit-user modal: only the
      length is bounded, and a blank value passes. */
  function BoundedText(value: string, maxLength: nat, tooLong: string): (msg: string)
    requires tooLong != ""
    ensures msg == "" <==> JsLength(value) <= maxLength
    ensures JsLength(value) > maxLength ==> msg == tooLong
  {
    if JsLength(value) > maxLength then tooLong else ""
  }

  /** The email check both modals make, each with its own message. */
  function EmailCheck(value: string, invalid: string): (msg: string)
    requires invalid != ""
    ensures msg == "" <==> MatchesEmailPattern(value)
    ensures !MatchesEmailPattern(value) ==> msg == invalid
  {
    EmailValidIffPattern(value);
    if !ValidEmail(value) then invalid else ""
  }

  /** `validateField` of the Add-user modal; `ValidateCreateRules` states
      what it accepts and which message it gives. */
  function ValidateCreate(field: Field, value: string): string {
    match field
    case Name => RequiredText(value, MaxCreateNameLength, NameRequired, NameTooLong)
    case Email => EmailCheck(value, EmailInvalid)
    case Password => if ValidPassword(value) then "" else PasswordInvalid
    case Title => RequiredText(value, MaxCreateTitleLength, TitleRequired, TitleTooLong)
    case Description => RequiredText(value, MaxCreateDescriptionLength, DescriptionRequired, DescriptionTooLong)
  }

  /** `validateField` of the Edit-user modal: the name has no length limit,
      blank titles and descriptions pass, and the password (which this modal
      never edits) falls to the `default` branch. `ValidateEditRules` states
      what it accepts and which message it gives. */
  function ValidateEdit(field: Field, value: string): string {
    match field
    case Name => if IsBlank(value) then EditNameRequired else ""
    case Email => EmailCheck(value, EditEmailInvalid)
    case Password => ""
    case Title => BoundedText(value, MaxEditTitleLength, EditTitleTooLong)
    case Description => BoundedText(value, MaxEditDescriptionLength, EditDescriptionTooLong)
  }

  /** The create rules, field by field: what is accepted, and the message a
      refused value gets. A blank name, title or description gets that
      field's "required" message, a non-blank one over its limit that
      field's "too long" message, and a refused email or password its own
      message. */
  lemma ValidateCreateRules(field: Field, value: string)
    ensures var msg := ValidateCreate(field, value);
      && (field == Name ==>
            && (msg == "" <==> HasVisibleChar(value) && JsLength(value) <= MaxCreateNameLength)
            && (!HasVisibleChar(value) ==> msg == NameRequired)
            && (HasVisibleChar(value) && JsLength(value) > MaxCreateNameLength ==> msg == NameTooLong))
      && (field == Email ==>
            && (msg == "" <==> MatchesEmailPattern(value))
            && (!MatchesEmailPattern(value) ==> msg == EmailInvalid))
      && (field == Password ==>
            && (msg == "" <==> ValidPassword(value))
            && (!ValidPassword(value) ==> msg == PasswordInvalid))
      && (field == Title ==>
            && (msg == "" <==> HasVisibleChar(value) && JsLength(value) <= MaxCreateTitleLength)
            && (!HasVisibleChar(value) ==> msg == TitleRequired)
            && (HasVisibleChar(value) && JsLength(value) > MaxCreateTitleLength ==> msg == TitleTooLong))
      && (field == Description ==>
            && (msg == "" <==> HasVisibleChar(value) && JsLength(value) <= MaxCreateDescriptionLength)
            && (!HasVisibleChar(value) ==> msg == DescriptionRequired)
            && (HasVisibleChar(value) && JsLength(value) > MaxCreateDescriptionLength ==> msg == DescriptionTooLong))
  {
  }

  /** The edit rules, field by field: what is accepted, and the message a
      refused value gets. */
  lemma ValidateEditRules(field: Field, value: string)
    ensures var msg := ValidateEdit(field, value);
      && (field == Name ==>
            && (msg == "" <==> HasVisibleChar(value))
            && (!HasVisibleChar(value) ==> msg == EditNameRequired))
      && (field == Email ==>
            && (msg == "" <==> MatchesEmailPattern(value))
            && (!MatchesEmailPattern(value) ==> msg == EditEmailInvalid))
      && (field == Password ==> msg == "")
      && (field == Title ==>
            && (msg == "" <==> JsLength(value) <= MaxEditTitleLength)
            && (JsLength(value) > MaxEditTitleLength ==> msg == EditTitleTooLong))
      && (field == Description ==>
            && (msg == "" <==> JsLength(value) <= MaxEditDescriptionLength)
            && (JsLength(value) > MaxEditDescriptionLength ==> msg == EditDescriptionTooLong))
  {
  }

  /** The edit rules are looser than the create rules, field by field: a
      value the Add modal accepts is accepted by the Edit modal. */
  lemma EditAcceptsWhatCreateAccepts(field: Field, value: string)
    requires ValidateCreate(field, value) == ""
    ensures ValidateEdit(field, value) == ""
  {
  }

  /** Strictly looser: a 31-character name, a blank title and a blank
      description pass the edit rules and fail the create rules. */
  lemma EditRulesStrictlyLooser()
    ensures var longName := seq(31, _ => 'a');
            ValidateEdit(Name, longName) == "" && ValidateCreate(Name, longName) == NameTooLong
    ensures ValidateEdit(Title, "") == "" && ValidateCreate(Title, "") == TitleRequired
    ensures ValidateEdit(Description, " ") == "" && ValidateCreate(Description, " ") == DescriptionRequired
  {
    var longName := seq(31, _ => 'a');
    assert !IsSpace(longName[0]);
    assert JsLength(" ") <= 2;
  }

  /** A password with any character outside `[A-Za-z0-9]` is refused, even
      when it is long enough and has an upper-case letter and a digit. */
  lemma PasswordRefusesSymbols(s: string, k: int)
    requires 0 <= k < |s| && !IsAsciiAlnum(s[k])
    ensures ValidateCreate(Password, s) == PasswordInvalid
  {
  }

  /** The two sides of that rule on concrete values. */
  lemma PasswordExamples()
    ensures ValidateCreate(Password, "Passw0rd") == ""
    ensures ValidateCreate(Password, "Passw0rd!") == PasswordInvalid
    ensures ValidateCreate(Password, "password1") == PasswordInvalid
  {
    assert IsAsciiUpper("Passw0rd"[0]) && IsAsciiDigit("Passw0rd"[5]);
    assert !IsAsciiAlnum("Passw0rd!"[8]);
    var p := "password1";
    assert forall k :: 0 <= k < |p| ==> !IsAsciiUpper(p[k]);
  }

  /** A plain address passes the email check. */
  lemma EmailAccepted()
    ensures ValidateCreate(Email, "ana@mail.com") == ""
  {
    var s := "ana@mail.com";
    assert AllSegmentChars(s[..3]) by { assert s[..3] == "ana"; }
    assert AllSegmentChars(s[4..8]) by { assert s[4..8] == "mail"; }
    assert AllSegmentChars(s[9..]) by { assert s[9..] == "com"; }
    PatternMatchIsValidEmail(s, 3, 8);
  }

  /** A second `@` is refused. */
  lemma EmailTwoAtsRefused()
    ensures ValidateCreate(Email, "a@b@c.d") == EmailInvalid
  {
    var s := "a@b@c.d";
    assert IndexOf(s, '@') == 1;
    assert s[2..][1] == '@';
  }

  /** An empty local part is refused. */
  lemma EmailEmptyLocalRefused()
    ensures ValidateCreate(Email, "@c.d") == EmailInvalid
  {
    assert IndexOf("@c.d", '@') == 0;
  }

  /** A dot right after the `@` is refused. */
  lemma EmailDotAfterAtRefused()
    ensures ValidateCreate(Email, "a@.cd") == EmailInvalid
  {
    var s := "a@.cd";
    assert IndexOf(s, '@') == 1;
    assert s[2..][1..2] == "c";
  }
}
