/*
 * The input checks client.c runs before it builds any request: no space in
 * a username or password, no empty book field, and the digit check on a
 * page count or a book id.
 *
 * The digit check loops `for (int i = 0; i < strlen(s) - 1; i++)`: the
 * bound is computed in size_t, so it skips the last character, and on the
 * empty string it wraps to SIZE_MAX and the loop reads the terminating NUL.
 * `CheckDigitsAsWritten` is that loop; `CheckDigits` is the check the
 * error message promises, and the session model uses it.
 */
module Validation {
  import opened CStrings

  /** The outcome of the credentials check, in the order client.c tests. */
  datatype CredentialsCheck = CredentialsOk | UsernameHasSpace | PasswordHasSpace

  /** strchr(username, ' ') then strchr(password, ' '). */
  function CheckCredentials(username: string, password: string): (r: CredentialsCheck)
    ensures r == UsernameHasSpace <==> ' ' in username
    ensures r == PasswordHasSpace <==> ' ' !in username && ' ' in password
    ensures r == CredentialsOk <==> ' ' !in username && ' ' !in password
  {
    if HasChar(username, ' ') then UsernameHasSpace
    else if HasChar(password, ' ') then PasswordHasSpace
    else CredentialsOk
  }

  /** The five strings add_book reads, as typed. */
  datatype Book = Book(title: string, author: string, genre: string, publisher: string, pageCount: string)

  function Fields(b: Book): seq<string> {
    [b.title, b.author, b.genre, b.publisher, b.pageCount]
  }

  /** The strlen(...) == 0 test over the five fields. */
  function HasEmptyField(b: Book): (r: bool)
    ensures r <==> exists k :: 0 <= k < |Fields(b)| && Fields(b)[k] == []
  {
    var fs := Fields(b);
    assert fs[0] == b.title && fs[1] == b.author && fs[2] == b.genre;
    assert fs[3] == b.publisher && fs[4] == b.pageCount;
    |b.title| == 0 || |b.author| == 0 || |b.genre| == 0 || |b.publisher| == 0 || |b.pageCount| == 0
  }

  /** The largest size_t on the 64-bit targets the client is built for. */
  const SIZE_MAX: int := 0xFFFF_FFFF_FFFF_FFFF

  /** What the loop as written accepts: non-empty, digits except perhaps the last. */
  predicate DigitsBeforeLast(s: string) {
    |s| > 0 && forall i :: 0 <= i < |s| - 1 ==> IsDigit(s[i])
  }

  /**
   * The loop of client.c:288-298, 353-359 and 411-417 as written. `buf` is
   * the string with its NUL, `bound` is strlen(s) - 1 in size_t.
   */
  method CheckDigitsAsWritten(s: string) returns (ok: bool)
    ensures ok <==> DigitsBeforeLast(s)
  {
    var buf := s + ['\0'];
    var bound := if |s| == 0 then SIZE_MAX else |s| - 1;
    var i := 0;
    while i < bound
      invariant 0 <= i <= |s|
      invariant |s| > 0 ==> i <= bound
      invariant forall j :: 0 <= j < i ==> IsDigit(s[j])
      decreases |buf| - i
    {
      if !IsDigit(buf[i]) {
        assert i < |s| ==> s[i] == buf[i];
        return false;
      }
      i := i + 1;
    }
    return true;
  }

  /** The check the "must be a number" message promises. */
  method CheckDigits(s: string) returns (ok: bool)
    ensures ok <==> AllDigits(s)
  {
    if |s| == 0 {
      return false;
    }
    var i := 0;
    while i < |s|
      invariant 0 <= i <= |s|
      invariant forall j :: 0 <= j < i ==> IsDigit(s[j])
    {
      if !IsDigit(s[i]) {
        return false;
      }
      i := i + 1;
    }
    return true;
  }

  /** The loop as written lets a non-digit through in the last place. */
  lemma LastCharUnchecked()
    ensures DigitsBeforeLast("12a") && !AllDigits("12a")
  {
    assert "12a"[2] == 'a';
  }

  /** The two checks differ exactly in the last character. */
  lemma DigitChecksAgree(s: string)
    ensures AllDigits(s) <==> DigitsBeforeLast(s) && |s| > 0 && IsDigit(s[|s| - 1])
  {
  }

  /** What the corrected check accepts is exactly what reads as a decimal number. */
  lemma DigitsAreNumber(s: string)
    ensures AllDigits(s) <==> ParseDecimal(s).Some?
  {
  }
}
