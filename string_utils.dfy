/**
 * String helpers. A Java `String` that may be null is an `Option<string>`; a `char` is one
 * Unicode scalar value.
 */
module StringUtils {
  import opened Wrappers

  datatype StringError = NonPositiveLength | InvalidRange

  /** `String.trim` strips every character whose code is at most that of the space. */
  predicate IsTrimmable(c: char) {
    c <= ' '
  }

  predicate AllTrimmable(s: string) {
    forall i :: 0 <= i < |s| ==> IsTrimmable(s[i])
  }

  predicate IsDigit(c: char) {
    '0' <= c <= '9'
  }

  predicate AllDigits(s: string) {
    forall i :: 0 <= i < |s| ==> IsDigit(s[i])
  }

  function StripLeading(s: string): (r: string)
    ensures |r| <= |s| && r == s[|s| - |r|..]
    ensures r == [] || !IsTrimmable(r[0])
    ensures AllTrimmable(s[..|s| - |r|])
  {
    if s != [] && IsTrimmable(s[0]) then
      var r := StripLeading(s[1..]);
      assert s[..|s| - |r|] == [s[0]] + s[1..][..|s[1..]| - |r|];
      r
    else s
  }

  function StripTrailing(s: string): (r: string)
    ensures |r| <= |s| && r == s[..|r|]
    ensures r == [] || !IsTrimmable(r[|r| - 1])
    ensures AllTrimmable(s[|r|..])
  {
    if s != [] && IsTrimmable(s[|s| - 1]) then
      var r := StripTrailing(s[..|s| - 1]);
      assert s[|r|..] == s[..|s| - 1][|r|..] + [s[|s| - 1]];
      r
    else s
  }

  /** `String.trim`: the text between the leading and the trailing trimmable characters. */
  function Trim(s: string): (r: string)
    ensures |r| <= |s|
    ensures r == [] || (!IsTrimmable(r[0]) && !IsTrimmable(r[|r| - 1]))
  {
    StripTrailing(StripLeading(s))
  }

  /** Where the trimmed text starts in `s`. */
  function TrimStart(s: string): nat {
    |s| - |StripLeading(s)|
  }

  /**
   * The trimmed text is the slice of `s` that starts at `TrimStart(s)`, with no trimmable
   * character at either end, and everything outside that slice is trimmable.
   */
  lemma TrimShape(s: string)
    ensures TrimStart(s) + |Trim(s)| <= |s|
    ensures Trim(s) == s[TrimStart(s)..TrimStart(s) + |Trim(s)|]
    ensures Trim(s) == [] || (!IsTrimmable(Trim(s)[0]) && !IsTrimmable(Trim(s)[|Trim(s)| - 1]))
    ensures AllTrimmable(s[..TrimStart(s)]) && AllTrimmable(s[TrimStart(s) + |Trim(s)|..])
  {
    var l := StripLeading(s);
    var i := TrimStart(s);
    var t := Trim(s);
    assert l == s[i..];
    assert t == l[..|t|];
    assert l[..|t|] == s[i..i + |t|];
    assert s[i + |t|..] == l[|t|..];
  }

  /** Trimming trims everything or nothing more: a second trim changes nothing. */
  lemma TrimIdempotent(s: string)
    ensures Trim(Trim(s)) == Trim(s)
  {
    var t := Trim(s);
    TrimShape(s);
    if t != [] {
      assert StripLeading(t) == t;
    }
  }

  /** A string trims to empty iff all of its characters are trimmable. */
  lemma {:induction false} TrimEmptyIff(s: string)
    ensures Trim(s) == [] <==> AllTrimmable(s)
  {
    var l := StripLeading(s);
    if l == [] {
      assert s[..|s|] == s;
    } else {
      assert !IsTrimmable(l[0]);
      assert l[0..] == l;
      assert s[|s| - |l|] == l[0];
    }
  }

  /** `isBlank`: null, or nothing left after trimming; that is, null or every character trimmable. */
  predicate IsBlank(s: Option<string>): (r: bool)
    ensures r <==> s.None? || AllTrimmable(s.value)
  {
    s.None? || (TrimEmptyIff(s.value); Trim(s.value) == [])
  }

  /** `isNotBlank`: the exact negation of `isBlank`, so non-null with some non-trimmable character. */
  predicate IsNotBlank(s: Option<string>): (r: bool)
    ensures r <==> s.Some? && exists i :: 0 <= i < |s.value| && !IsTrimmable(s.value[i])
  {
    !IsBlank(s)
  }

  /** `trim`: null stays null, any other string is trimmed. */
  function TrimOrNull(s: Option<string>): (r: Option<string>)
    ensures r.None? <==> s.None?
    ensures r.Some? ==> r.value == Trim(s.value) && (r.value == [] <==> IsBlank(s))
  {
    if s.None? then None else Some(Trim(s.value))
  }

  /** The 26 capital letters, then the 26 small letters, then the ten digits. */
  const Alphabet: string :=
    seq(26, i requires 0 <= i < 26 => ('A' as int + i) as char)
    + seq(26, i requires 0 <= i < 26 => ('a' as int + i) as char)
    + seq(10, i requires 0 <= i < 10 => ('0' as int + i) as char)

  predicate IsAlphanumeric(c: char) {
    'A' <= c <= 'Z' || 'a' <= c <= 'z' || IsDigit(c)
  }

  lemma AlphabetIsAlphanumeric()
    ensures |Alphabet| == 62
    ensures forall i :: 0 <= i < |Alphabet| ==> IsAlphanumeric(Alphabet[i])
  {
  }

  /**
   * `randomString`: the random draws `nextInt(62)` are supplied as `picks`. A non-positive
   * length is rejected; otherwise the result has that many characters, the i-th being
   * the alphabet character at the i-th draw.
   */
  method RandomString(length: int, picks: seq<int>) returns (r: Result<string, StringError>)
    requires |picks| >= length
    requires forall i :: 0 <= i < |picks| ==> 0 <= picks[i] < |Alphabet|
    ensures r.Failure? <==> length <= 0
    ensures r.Failure? ==> r.error == NonPositiveLength
    ensures r.Success? ==>
              && |r.value| == length
              && (forall i :: 0 <= i < length ==> r.value[i] == Alphabet[picks[i]])
              && (forall i :: 0 <= i < length ==> IsAlphanumeric(r.value[i]))
  {
    if length <= 0 {
      return Failure(NonPositiveLength);
    }
    AlphabetIsAlphanumeric();
    var sb: string := "";
    var i := 0;
    while i < length
      invariant 0 <= i <= length
      invariant |sb| == i
      invariant forall k :: 0 <= k < i ==> sb[k] == Alphabet[picks[k]]
    {
      sb := sb + [Alphabet[picks[i]]];
      i := i + 1;
    }
    r := Success(sb);
  }

  /**
   * `isNumeric`: not blank, and every character a digit. The blank guard only rules out the
   * empty string, since a digit is never trimmable.
   */
  predicate IsNumeric(s: Option<string>): (r: bool)
    ensures r <==> s.Some? && s.value != [] && AllDigits(s.value)
  {
    !IsBlank(s) && AllDigits(s.value)
  }

  lemma NumericExamples()
    ensures IsNumeric(Some("12345"))
    ensures !IsNumeric(Some("123a45"))
  {
    assert !IsDigit("123a45"[3]);
  }

  /** The pattern `^1[3-9]\d{9}$`: eleven characters, '1', then '3'..'9', then nine digits. */
  predicate MatchesPhonePattern(s: string) {
    |s| == 11 && s[0] == '1' && '3' <= s[1] <= '9' && forall i :: 2 <= i < 11 ==> IsDigit(s[i])
  }

  /** `isPhone`: not blank, and matching the mobile-number pattern, which no blank string matches. */
  predicate IsPhone(s: Option<string>): (r: bool)
    ensures r <==> s.Some? && MatchesPhonePattern(s.value)
  {
    !IsBlank(s) && MatchesPhonePattern(s.value)
  }

  lemma PhoneExamples()
    ensures IsPhone(Some("13800138000"))
    ensures !IsPhone(Some("12345678901"))
  {
    var s := "13800138000";
    assert s[1] == '3';
    forall i | 2 <= i < 11
      ensures IsDigit(s[i])
    {
    }
    assert "12345678901"[1] == '2';
  }

  /**
   * `substring`: a blank input comes back unchanged; otherwise bounds outside
   * 0 <= start <= end <= length are rejected, and the result is the characters [start, end).
   */
  function Substring(s: Option<string>, start: int, end: int): (r: Result<Option<string>, StringError>)
    ensures IsBlank(s) ==> r == Success(s)
    ensures !IsBlank(s) ==> (r.Failure? <==> !(0 <= start <= end <= |s.value|))
    ensures r.Failure? ==> r.error == InvalidRange
    ensures !IsBlank(s) && r.Success? ==>
              && r.value.Some? && |r.value.value| == end - start
              && forall i :: 0 <= i < end - start ==> r.value.value[i] == s.value[start + i]
  {
    if IsBlank(s) then Success(s)
    else if start < 0 || end > |s.value| || start > end then Failure(InvalidRange)
    else Success(Some(s.value[start..end]))
  }

  lemma SubstringExample()
    ensures Substring(Some("Hello World"), 0, 5) == Success(Some("Hello"))
  {
    assert !IsTrimmable("Hello World"[0]);
    TrimEmptyIff("Hello World");
    assert "Hello World"[0..5] == "Hello";
  }

  /** The characters of `s` in the opposite order. */
  function Reversed(s: string): (r: string)
    ensures |r| == |s|
    ensures forall i :: 0 <= i < |s| ==> r[i] == s[|s| - 1 - i]
  {
    if s == [] then [] else Reversed(s[1..]) + [s[0]]
  }

  /** `reverse`: a blank input comes back unchanged, any other string is reversed. */
  function Reverse(s: Option<string>): (r: Option<string>)
    ensures IsBlank(s) ==> r == s
    ensures !IsBlank(s) ==> r.Some? && |r.value| == |s.value|
                            && forall i :: 0 <= i < |s.value| ==> r.value[i] == s.value[|s.value| - 1 - i]
  {
    if IsBlank(s) then s else Some(Reversed(s.value))
  }

  lemma ReversedInvolution(s: string)
    ensures Reversed(Reversed(s)) == s
  {
  }

  /** Reversal moves characters but keeps them, so it keeps a string blank or not blank. */
  lemma ReversedKeepsBlank(s: string)
    ensures IsBlank(Some(Reversed(s))) <==> IsBlank(Some(s))
  {
    var r := Reversed(s);
    if AllTrimmable(s) {
      assert forall i :: 0 <= i < |r| ==> r[i] == s[|s| - 1 - i];
    } else {
      var i :| 0 <= i < |s| && !IsTrimmable(s[i]);
      assert r[|s| - 1 - i] == s[i];
    }
  }

  /** Reversing twice gives back the input, blank or not. */
  lemma ReverseInvolution(s: Option<string>)
    ensures Reverse(Reverse(s)) == s
  {
    if !IsBlank(s) {
      ReversedKeepsBlank(s.value);
      ReversedInvolution(s.value);
    }
  }

  lemma ReverseExample()
    ensures Reverse(Some("Hello")) == Some("olleH")
  {
    assert !IsTrimmable("Hello"[0]);
    TrimEmptyIff("Hello");
    assert Reversed("Hello") == "olleH";
  }

  /** How `StringBuilder.append` writes a string that may be null. */
  function Text(s: Option<string>): string {
    if s.None? then "null" else s.value
  }

  /** The parts with the delimiter between consecutive parts. */
  function Joined(delimiter: string, parts: seq<string>): string
    decreases |parts|
  {
    if |parts| == 0 then ""
    else if |parts| == 1 then parts[0]
    else Joined(delimiter, parts[..|parts| - 1]) + delimiter + parts[|parts| - 1]
  }

  function TotalLength(parts: seq<string>): nat
    decreases |parts|
  {
    if parts == [] then 0 else TotalLength(parts[..|parts| - 1]) + |parts[|parts| - 1]|
  }

  /** `n` parts carry exactly `n - 1` delimiters: the length is the parts' plus that many delimiters. */
  lemma {:induction false} JoinedLength(delimiter: string, parts: seq<string>)
    requires parts != []
    ensures |Joined(delimiter, parts)| == TotalLength(parts) + (|parts| - 1) * |delimiter|
    decreases |parts|
  {
    if |parts| > 1 {
      JoinedLength(delimiter, parts[..|parts| - 1]);
    } else {
      assert parts[..0] == [];
    }
  }

  /** Joining two non-empty runs of parts is joining each and putting one delimiter between. */
  lemma {:induction false} JoinedConcat(delimiter: string, left: seq<string>, right: seq<string>)
    requires left != [] && right != []
    ensures Joined(delimiter, left + right) == Joined(delimiter, left) + delimiter + Joined(delimiter, right)
    decreases |right|
  {
    var all := left + right;
    assert all[..|all| - 1] == left + right[..|right| - 1];
    if |right| > 1 {
      JoinedConcat(delimiter, left, right[..|right| - 1]);
    } else {
      assert all[..|all| - 1] == left;
    }
  }

  /** The result starts with the first part and ends with the last: no leading or trailing delimiter. */
  lemma {:induction false} JoinedEnds(delimiter: string, parts: seq<string>)
    requires parts != []
    ensures |parts[0]| <= |Joined(delimiter, parts)|
    ensures Joined(delimiter, parts)[..|parts[0]|] == parts[0]
    ensures Joined(delimiter, parts)[|Joined(delimiter, parts)| - |parts[|parts| - 1]|..] == parts[|parts| - 1]
    decreases |parts|
  {
    if |parts| > 1 {
      JoinedEnds(delimiter, parts[..|parts| - 1]);
      assert parts[..|parts| - 1][0] == parts[0];
    }
  }

  lemma JoinExample()
    ensures Joined(", ", ["A", "B", "C"]) == "A, B, C"
  {
    assert ["A", "B", "C"][..2] == ["A", "B"];
    assert ["A", "B"][..1] == ["A"];
  }

  function Texts(parts: seq<Option<string>>): (r: seq<string>)
    ensures |r| == |parts| && forall i :: 0 <= i < |parts| ==> r[i] == Text(parts[i])
  {
    seq(|parts|, i requires 0 <= i < |parts| => Text(parts[i]))
  }

  /**
   * `join`: "" for null or no parts; otherwise each part in turn, followed by the delimiter
   * unless it is the last. Null parts and a null delimiter are written as "null".
   */
  method Join(delimiter: Option<string>, parts: Option<seq<Option<string>>>) returns (r: string)
    ensures parts.None? || parts.value == [] ==> r == ""
    ensures parts.Some? ==> r == Joined(Text(delimiter), Texts(parts.value))
  {
    if parts.None? || |parts.value| == 0 {
      return "";
    }
    var ps := parts.value;
    var d := Text(delimiter);
    ghost var texts := Texts(ps);
    var sb: string := "";
    var i := 0;
    while i < |ps|
      invariant 0 <= i <= |ps|
      invariant i == 0 ==> sb == ""
      invariant 0 < i < |ps| ==> sb == Joined(d, texts[..i]) + d
      invariant i == |ps| ==> sb == Joined(d, texts[..i])
    {
      assert texts[..i + 1][..i] == texts[..i];
      sb := sb + Text(ps[i]);
      if i < |ps| - 1 {
        sb := sb + d;
      }
      i := i + 1;
    }
    assert texts[..|ps|] == texts;
    r := sb;
  }
}
