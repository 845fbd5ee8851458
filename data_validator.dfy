/**
 * Input validators. Each rejects a null or empty input before matching; the fixed-shape
 * patterns for phone numbers and ID cards are modelled outright, while the email, URL and
 * caller-supplied patterns are matched by a regular-expression engine given as a parameter.
 */
module DataValidator {
  import opened Wrappers
  import StringUtils

  /** The guard every validator applies first. */
  predicate Present(s: Option<string>) {
    s.Some? && s.value != []
  }

  /** `isValidEmail`, with the email pattern's matcher supplied. */
  function IsValidEmail(email: Option<string>, matchesEmailPattern: string -> bool): (r: bool)
    ensures r <==> Present(email) && matchesEmailPattern(email.value)
  {
    if email.None? || email.value == [] then false else matchesEmailPattern(email.value)
  }

  /** `isValidUrl`, with the URL pattern's matcher supplied. */
  function IsValidUrl(url: Option<string>, matchesUrlPattern: string -> bool): (r: bool)
    ensures r <==> Present(url) && matchesUrlPattern(url.value)
  {
    if url.None? || url.value == [] then false else matchesUrlPattern(url.value)
  }

  /** `isValidByRegex`: both the input and the pattern must be present; `matches` is the engine. */
  function IsValidByRegex(input: Option<string>, regex: Option<string>, matches: (string, string) -> bool): (r: bool)
    ensures r <==> Present(input) && Present(regex) && matches(regex.value, input.value)
  {
    if input.None? || regex.None? || input.value == [] || regex.value == [] then false
    else matches(regex.value, input.value)
  }

  /** `isValidPhone`: present, and matching `^1[3-9]\d{9}$`. */
  function IsValidPhone(phone: Option<string>): (r: bool)
    ensures r <==> phone.Some? && StringUtils.MatchesPhonePattern(phone.value)
    ensures r ==> |phone.value| == 11 && phone.value[0] == '1' && StringUtils.AllDigits(phone.value)
  {
    if phone.None? || phone.value == [] then false else StringUtils.MatchesPhonePattern(phone.value)
  }

  /** The pattern `(^\d{15}$)|(^\d{17}([0-9]|X|x)$)`. */
  predicate MatchesIdCardPattern(s: string) {
    || (|s| == 15 && StringUtils.AllDigits(s))
    || (|s| == 18 && StringUtils.AllDigits(s[..17]) && (StringUtils.IsDigit(s[17]) || s[17] == 'X' || s[17] == 'x'))
  }

  /** `isValidIdCard`: present, and 15 digits or 17 digits followed by a digit, 'X' or 'x'. */
  function IsValidIdCard(idCard: Option<string>): (r: bool)
    ensures r <==> idCard.Some? && MatchesIdCardPattern(idCard.value)
  {
    if idCard.None? || idCard.value == [] then false else MatchesIdCardPattern(idCard.value)
  }

  /** Whatever the patterns and the engine, a null or empty input is never valid. */
  lemma AbsentIsInvalid(s: Option<string>, other: Option<string>, m: string -> bool, engine: (string, string) -> bool)
    requires !Present(s)
    ensures !IsValidEmail(s, m) && !IsValidUrl(s, m) && !IsValidPhone(s) && !IsValidIdCard(s)
    ensures !IsValidByRegex(s, other, engine) && !IsValidByRegex(other, s, engine)
  {
  }

  /** The two phone checks agree on every input, though one guards on blank and the other on empty. */
  lemma PhoneValidatorsAgree(phone: Option<string>)
    ensures IsValidPhone(phone) == StringUtils.IsPhone(phone)
  {
  }

  /** A valid ID card has 15 or 18 characters, and only the last of them may be a letter. */
  lemma IdCardShape(idCard: string)
    requires IsValidIdCard(Some(idCard))
    ensures |idCard| == 15 || |idCard| == 18
    ensures forall i :: 0 <= i < |idCard| - 1 ==> StringUtils.IsDigit(idCard[i])
  {
    if |idCard| == 18 {
      assert forall i :: 0 <= i < 17 ==> idCard[..17][i] == idCard[i];
    }
  }

  lemma PhoneExamples()
    ensures IsValidPhone(Some("13800138000"))
    ensures !IsValidPhone(Some("12345678901"))
  {
    StringUtils.PhoneExamples();
    PhoneValidatorsAgree(Some("13800138000"));
    PhoneValidatorsAgree(Some("12345678901"));
  }

  lemma IdCardExamples()
    ensures IsValidIdCard(Some("110105199003071234"))
    ensures IsValidIdCard(Some("123456789012345"))
    ensures IsValidIdCard(Some("12345678901234567X"))
    ensures !IsValidIdCard(Some("1234567890123456780"))
  {
    var a := "110105199003071234";
    forall i | 0 <= i < 17
      ensures StringUtils.IsDigit(a[..17][i])
    {
    }
    var b := "123456789012345";
    forall i | 0 <= i < 15
      ensures StringUtils.IsDigit(b[i])
    {
    }
    var c := "12345678901234567X";
    forall i | 0 <= i < 17
      ensures StringUtils.IsDigit(c[..17][i])
    {
    }
  }
}
