/*
 * Models of the C library string routines the client relies on: strstr,
 * strchr, strtok, isdigit and the "%d" conversion of sprintf.
 *
 * A C string is modelled by its characters up to (not including) the
 * terminating NUL, so a `string` here never stands for the NUL itself and
 * holds no NUL. Each `char` stands for one byte, so `|s|` is `strlen(s)`.
 * A pointer into a string is modelled by an index into it.
 */
module CStrings {

  datatype Option<+T> = None | Some(value: T)

  /** `pat` occurs in `s` starting at index `i`. */
  predicate OccursAt(s: string, pat: string, i: int) {
    0 <= i && i + |pat| <= |s| && s[i..i + |pat|] == pat
  }

  /** `i` is the first occurrence of `pat` in `s` at or after `from`. */
  ghost predicate FirstAt(s: string, pat: string, from: int, i: int) {
    from <= i && OccursAt(s, pat, i) &&
    forall j :: from <= j < i ==> !OccursAt(s, pat, j)
  }

  /**
   * strstr(s + from, pat): the first index at or after `from` where `pat`
   * occurs, or None when it occurs nowhere there.
   */
  function IndexFrom(s: string, pat: string, from: nat): (r: Option<nat>)
    requires from <= |s|
    ensures r.Some? ==> FirstAt(s, pat, from, r.value)
    ensures r.None? ==> forall j :: from <= j ==> !OccursAt(s, pat, j)
    decreases |s| - from
  {
    if OccursAt(s, pat, from) then Some(from)
    else if from == |s| then None
    else IndexFrom(s, pat, from + 1)
  }

  /** strstr(s, pat). */
  function IndexOf(s: string, pat: string): (r: Option<nat>)
    ensures r.Some? ==> FirstAt(s, pat, 0, r.value)
    ensures r.None? ==> forall j :: !OccursAt(s, pat, j)
  {
    IndexFrom(s, pat, 0)
  }

  /** An occurrence with none before it is what strstr finds. */
  lemma IndexFromFirst(s: string, pat: string, from: nat, i: nat)
    requires from <= |s|
    requires FirstAt(s, pat, from, i)
    ensures IndexFrom(s, pat, from) == Some(i)
  {
    var r := IndexFrom(s, pat, from);
    assert r.Some?;
    assert !(r.value < i);
  }

  /** A pattern does not occur where one of its characters is missing. */
  lemma Mismatch(s: string, pat: string, j: nat, k: nat)
    requires k < |pat| && j + k < |s| && s[j + k] != pat[k]
    ensures !OccursAt(s, pat, j)
  {
    if j + |pat| <= |s| {
      assert s[j..j + |pat|][k] == s[j + k];
    }
  }

  /**
   * The first index at or after `from` holding `c`, or |s| when there is
   * none (the scan strchr and strtok perform).
   */
  function FindChar(s: string, c: char, from: nat): (k: nat)
    requires from <= |s|
    ensures from <= k <= |s|
    ensures k < |s| ==> s[k] == c
    ensures forall j :: from <= j < k ==> s[j] != c
    decreases |s| - from
  {
    if from == |s| || s[from] == c then from else FindChar(s, c, from + 1)
  }

  /** The first `c` at or after `from` is what the scan finds. */
  lemma FindCharFirst(s: string, c: char, from: nat, k: nat)
    requires from <= k < |s| && s[k] == c
    requires forall j :: from <= j < k ==> s[j] != c
    ensures FindChar(s, c, from) == k
  {
    var r := FindChar(s, c, from);
    assert !(r < k);
    assert !(k < r);
  }

  /** The first index at or after `from` not holding `c`, or |s|. */
  function SkipChar(s: string, c: char, from: nat): (k: nat)
    requires from <= |s|
    ensures from <= k <= |s|
    ensures k < |s| ==> s[k] != c
    ensures forall j :: from <= j < k ==> s[j] == c
    decreases |s| - from
  {
    if from == |s| || s[from] != c then from else SkipChar(s, c, from + 1)
  }

  /** strchr(s, c) != NULL, for a character other than NUL. */
  function HasChar(s: string, c: char): (r: bool)
    ensures r <==> c in s
  {
    FindChar(s, c, 0) < |s|
  }

  /**
   * One call of strtok with the single delimiter `d`, resuming at index
   * `from` (the pointer strtok keeps between calls). `next` is where the
   * following call resumes.
   */
  datatype Tok = Tok(token: Option<string>, next: nat)

  function StrTok(s: string, from: nat, d: char): (r: Tok)
    requires from <= |s|
    ensures from <= r.next <= |s|
    ensures r.token.None? ==> r.next == |s|
    ensures r.token.Some? ==> r.token.value != [] && d !in r.token.value
  {
    var k := SkipChar(s, d, from);
    if k == |s| then Tok(None, |s|)
    else
      var e := FindChar(s, d, k);
      Tok(Some(s[k..e]), if e < |s| then e + 1 else |s|)
  }

  /**
   * No token exactly when only delimiters remain; otherwise where it lies:
   * after a run of delimiters, and followed by the delimiter the next call
   * resumes after, or by the end of the string.
   */
  lemma StrTokSpan(s: string, from: nat, d: char)
    requires from <= |s|
    ensures var r := StrTok(s, from, d);
      r.token.None? <==> forall j :: from <= j < |s| ==> s[j] == d
    ensures var r := StrTok(s, from, d);
      r.token.Some? ==>
      exists k :: from <= k && OccursAt(s, r.token.value, k) &&
        (forall j :: from <= j < k ==> s[j] == d) &&
        (if k + |r.token.value| < |s|
         then s[k + |r.token.value|] == d && r.next == k + |r.token.value| + 1
         else r.next == |s|)
  {
    var k := SkipChar(s, d, from);
    if k < |s| {
      var e := FindChar(s, d, k);
      assert OccursAt(s, s[k..e], k);
    }
  }

  /** isdigit. */
  predicate IsDigit(c: char) {
    '0' <= c <= '9'
  }

  function DigitChar(d: nat): (c: char)
    requires d < 10
    ensures IsDigit(c)
  {
    ('0' as int + d) as char
  }

  function DigitValue(c: char): nat
    requires IsDigit(c)
  {
    c as int - '0' as int
  }

  /** sprintf(line, "%d", n) for a non-negative n. */
  function Decimal(n: nat): (s: string)
    ensures s != [] && forall i :: 0 <= i < |s| ==> IsDigit(s[i])
    ensures s[0] == '0' ==> n == 0
  {
    if n < 10 then [DigitChar(n)] else Decimal(n / 10) + [DigitChar(n % 10)]
  }

  /** The number a string of decimal digits denotes. */
  function DigitsValue(s: string): nat
    requires forall i :: 0 <= i < |s| ==> IsDigit(s[i])
  {
    if s == [] then 0 else DigitsValue(s[..|s| - 1]) * 10 + DigitValue(s[|s| - 1])
  }

  /** A decimal number: non-empty and digits throughout. */
  predicate AllDigits(s: string) {
    |s| > 0 && forall i :: 0 <= i < |s| ==> IsDigit(s[i])
  }

  /** Reads a decimal number back: None unless `s` is a non-empty run of digits. */
  function ParseDecimal(s: string): (r: Option<nat>)
    ensures r.Some? <==> AllDigits(s)
  {
    if AllDigits(s) then Some(DigitsValue(s)) else None
  }

  /** Reading back what "%d" wrote gives the number that was written. */
  lemma {:induction false} DecimalRoundTrip(n: nat)
    ensures ParseDecimal(Decimal(n)) == Some(n)
  {
    if n < 10 {
      var s := Decimal(n);
      assert s == [DigitChar(n)] && s[..0] == [];
      assert DigitValue(s[0]) == n;
      assert DigitsValue(s) == DigitsValue([]) * 10 + DigitValue(s[0]);
    } else {
      var s := Decimal(n);
      assert s[..|s| - 1] == Decimal(n / 10);
      DecimalRoundTrip(n / 10);
      assert DigitsValue(s) == (n / 10) * 10 + n % 10;
    }
  }
}
