/** The input validators of the customer service: string and number predicates.
    Character classes are ASCII; the two regular expressions are restated as
    predicates over the characters of the string. */
module Validation {
  import opened Seqs

  predicate IsLetter(c: char) { 'A' <= c <= 'Z' || 'a' <= c <= 'z' }
  predicate IsDigit(c: char) { '0' <= c <= '9' }
  /** The special characters the password rule accepts. */
  predicate IsSpecial(c: char) { c in "@$!%*?&" }
  /** `\w` */
  predicate IsWordChar(c: char) { IsLetter(c) || IsDigit(c) || c == '_' }
  /** `[\w.-]` */
  predicate IsEmailChar(c: char) { IsWordChar(c) || c == '.' || c == '-' }

  /** A username is non-empty, 3 to 30 characters long and has no space. */
  predicate ValidateUsername(username: string) {
    !(|username| == 0 || |username| < 3 || |username| > 30 || ' ' in username)
  }

  /** `^(?=.*[A-Za-z])(?=.*\d)(?=.*[@$!%*?&])[A-Za-z\d@$!%*?&]{8,}$`: at least
      eight characters, each a letter, a digit or a special character, with at
      least one of each. */
  predicate ValidatePassword(password: string) {
    && (exists i :: 0 <= i < |password| && IsLetter(password[i]))
    && (exists i :: 0 <= i < |password| && IsDigit(password[i]))
    && (exists i :: 0 <= i < |password| && IsSpecial(password[i]))
    && |password| >= 8
    && forall i :: 0 <= i < |password| ==> IsLetter(password[i]) || IsDigit(password[i]) || IsSpecial(password[i])
  }

  /** The address splits as local part, '@' at `at`, domain, '.' at `dot`, suffix. */
  ghost predicate EmailSplit(s: string, at: int, dot: int) {
    && 0 < at && at + 1 < dot && dot + 1 < |s|
    && s[at] == '@' && s[dot] == '.'
    && (forall k :: 0 <= k < at ==> IsEmailChar(s[k]))
    && (forall k :: at < k < dot ==> IsEmailChar(s[k]))
    && (forall k :: dot < k < |s| ==> IsWordChar(s[k]))
  }

  /** The language of `^[\w.-]+@[\w.-]+\.\w+$`: some split into the four
      non-empty parts of the pattern exists. */
  ghost predicate MatchesEmailPattern(s: string) {
    exists at, dot :: EmailSplit(s, at, dot)
  }

  /** Index of the last occurrence of `c` in `s`. */
  function LastIndexOf(s: string, c: char): (r: Option<nat>)
    ensures r.Some? ==> r.value < |s| && s[r.value] == c
    ensures r.Some? ==> forall k :: r.value < k < |s| ==> s[k] != c
    ensures r.None? <==> forall k :: 0 <= k < |s| ==> s[k] != c
  {
    if |s| == 0 then None
    else if s[|s| - 1] == c then Some(|s| - 1)
    else LastIndexOf(s[..|s| - 1], c)
  }

  /** The email check as a scan: a single '@' that is not the first character,
      the last '.' at least two characters after it and before the final
      character, only `[\w.-]` around the '@' and only `\w` after the last '.'. */
  predicate ValidateEmail(email: string) {
    var at := FirstIndex(email, (c: char) => c == '@');
    var dot := LastIndexOf(email, '.');
    && at.Some? && dot.Some?
    && 0 < at.value && at.value + 1 < dot.value && dot.value + 1 < |email|
    && (forall k :: 0 <= k < |email| && k != at.value ==> IsEmailChar(email[k]))
    && (forall k :: dot.value < k < |email| ==> IsWordChar(email[k]))
  }

  /** The scan accepts exactly the addresses the regular expression matches. */
  lemma ValidateEmailIsPattern(email: string)
    ensures ValidateEmail(email) <==> MatchesEmailPattern(email)
  {
    var at := FirstIndex(email, (c: char) => c == '@');
    var dot := LastIndexOf(email, '.');
    if ValidateEmail(email) {
      assert EmailSplit(email, at.value, dot.value);
    }
    if MatchesEmailPattern(email) {
      var a, d :| EmailSplit(email, a, d);
      assert !IsEmailChar('@') && !IsWordChar('.');
      assert at.Some? && at.value == a;
      assert dot.Some? && dot.value == d;
      assert forall k :: 0 <= k < |email| && k != a ==> IsEmailChar(email[k]) by {
        forall k | 0 <= k < |email| && k != a
          ensures IsEmailChar(email[k])
        {
          if k < a { } else if k < d { } else if k == d { } else { assert IsWordChar(email[k]); }
        }
      }
    }
  }

  /** A Python value as the validators see it; `bool` is a subclass of `int`. */
  datatype PyValue = PyInt(i: int) | PyBool(b: bool) | PyFloat(x: real) | PyStr(s: string) | PyNone

  /** `isinstance(v, int)` */
  predicate IsIntInstance(v: PyValue) { v.PyInt? || v.PyBool? }

  /** The integer value of an `int` instance (`True` is 1, `False` is 0). */
  function IntValue(v: PyValue): int
    requires IsIntInstance(v)
  {
    if v.PyBool? then (if v.b then 1 else 0) else v.i
  }

  predicate ValidateAge(age: PyValue) {
    IsIntInstance(age) && IntValue(age) > 0
  }

  predicate ValidateGender(gender: string) {
    gender in ["Male", "Female", "Other"]
  }

  predicate ValidateMaritalStatus(status: string) {
    status in ["Single", "Married", "Divorced", "Widowed"]
  }

  predicate ValidatePositiveFloat(value: PyValue) {
    value.PyFloat? && value.x > 0.0
  }

  predicate ValidatePositiveInt(value: PyValue) {
    IsIntInstance(value) && IntValue(value) > 0
  }

  // The cases of the validators' test suite

  lemma UsernameCases()
    ensures ValidateUsername("valid_user123")
    ensures !ValidateUsername("invalid user")
    ensures !ValidateUsername("ab")
    ensures !ValidateUsername("verylongusernamebeyond30characters")
  {
    assert "invalid user"[7] == ' ';
  }

  lemma PasswordCases()
    ensures ValidatePassword("StrongP@ssword1")
    ensures !ValidatePassword("weakpassword")
    ensures !ValidatePassword("Weak1")
    ensures !ValidatePassword("Password123")
  {
    var strong := "StrongP@ssword1";
    assert IsLetter(strong[0]) && IsSpecial(strong[6 + 1]) && IsDigit(strong[14]);
    var weak := "weakpassword";
    assert forall i :: 0 <= i < |weak| ==> !IsDigit(weak[i]);
    var noSpecial := "Password123";
    assert forall i :: 0 <= i < |noSpecial| ==> !IsSpecial(noSpecial[i]);
  }

  lemma EmailAccepted()
    ensures ValidateEmail("user@example.com")
  {
    assert EmailSplit("user@example.com", 4, 12);
    ValidateEmailIsPattern("user@example.com");
  }

  lemma EmailRejected()
    ensures !ValidateEmail("user.example.com")
    ensures !ValidateEmail("user@")
    ensures !ValidateEmail("@example.com")
  {
    var noAt := "user.example.com";
    assert forall k :: 0 <= k < |noAt| ==> noAt[k] != '@';
    var noDomain := "user@";
    assert forall k :: 0 <= k < |noDomain| ==> noDomain[k] != '.';
    var noLocal := "@example.com";
    assert noLocal[0] == '@';
  }

  lemma NumberCases()
    ensures ValidateAge(PyInt(25)) && !ValidateAge(PyInt(0)) && !ValidateAge(PyInt(-5)) && !ValidateAge(PyStr("25"))
    ensures ValidatePositiveFloat(PyFloat(100.50)) && !ValidatePositiveFloat(PyFloat(0.0))
    ensures !ValidatePositiveFloat(PyFloat(-50.25)) && !ValidatePositiveFloat(PyStr("100.50"))
    ensures ValidatePositiveInt(PyInt(10)) && !ValidatePositiveInt(PyInt(0))
    ensures !ValidatePositiveInt(PyInt(-5)) && !ValidatePositiveInt(PyStr("10"))
    ensures ValidateGender("Male") && ValidateGender("Female") && ValidateGender("Other") && !ValidateGender("Unknown")
    ensures ValidateMaritalStatus("Single") && ValidateMaritalStatus("Married")
    ensures ValidateMaritalStatus("Divorced") && ValidateMaritalStatus("Widowed")
    ensures !ValidateMaritalStatus("Complicated")
  {
  }

  /** `isinstance(True, int)` holds, so `True` passes as a positive age and a
      positive integer, while an integer never passes as a positive float. */
  lemma BoolIsAnInt()
    ensures ValidateAge(PyBool(true)) && ValidatePositiveInt(PyBool(true))
    ensures !ValidateAge(PyBool(false))
    ensures !ValidatePositiveFloat(PyInt(10))
  {
  }
}
