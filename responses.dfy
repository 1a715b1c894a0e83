/*
 * The response inspection of client.c: every handler scans the raw
 * response text for fixed markers instead of parsing it.
 *
 *   - a response is a failure when it contains `error` anywhere;
 *   - login tells a bad password from an unknown user by looking for
 *     `Credentials` at or after that `error`;
 *   - the session cookie is the text from the first `connect.sid=` after
 *     the first `Set-Cookie: ` up to the next `;` (strtok);
 *   - the bearer token is the third `"`-delimited strtok token counted from
 *     the first `token`;
 *   - a listing is the rest of the response from the first `[`, a single
 *     book the rest from the first `{`.
 */
module Responses {
  import opened CStrings

  /** strstr(response, "error") != NULL. */
  function IsError(response: string): (r: bool)
    ensures r <==> exists i :: OccursAt(response, "error", i)
  {
    IndexOf(response, "error").Some?
  }

  /** What login makes of the server's reply. */
  datatype LoginReply = BadCredentials | UnknownUser | Accepted(cookie: Option<string>)

  /** The inspection in login (client.c:144-162). */
  function InspectLogin(response: string): (r: LoginReply)
    ensures r.Accepted? <==> !IsError(response)
    ensures r.Accepted? ==> r.cookie == ExtractCookie(response)
  {
    match IndexOf(response, "error")
    case Some(e) =>
      if IndexFrom(response, "Credentials", e).Some? then BadCredentials else UnknownUser
    case None => Accepted(ExtractCookie(response))
  }

  /**
   * A failed login is a credentials error exactly when `Credentials`
   * occurs at or after the first `error`.
   */
  lemma LoginFailureKind(response: string, e: nat)
    requires FirstAt(response, "error", 0, e)
    ensures InspectLogin(response) ==
      if exists j :: e <= j && OccursAt(response, "Credentials", j) then BadCredentials else UnknownUser
  {
    IndexFromFirst(response, "error", 0, e);
  }

  /**
   * The session cookie: from the first `connect.sid=` at or after the first
   * `Set-Cookie: ` up to the next `;` or the end. With no `Set-Cookie: `
   * there is no cookie; with no `connect.sid=` after it the source hands
   * NULL to strtok, which is modelled as no cookie.
   */
  function ExtractCookie(response: string): (r: Option<string>)
    ensures (forall i :: !OccursAt(response, "Set-Cookie: ", i)) ==> r.None?
    ensures r.Some? ==> "connect.sid=" <= r.value && ';' !in r.value
  {
    match IndexOf(response, "Set-Cookie: ")
    case None => None
    case Some(h) =>
      match IndexFrom(response, "connect.sid=", h)
      case None => None
      case Some(p) =>
        CookieStartsWithMarker(response, p);
        StrTok(response, p, ';').token
  }

  /** The cookie is text of the reply, ended by a `;` or by the end of the reply. */
  lemma CookieInReply(response: string)
    ensures var r := ExtractCookie(response);
      r.Some? ==> exists p :: (OccursAt(response, r.value, p) &&
        (p + |r.value| == |response| || response[p + |r.value|] == ';'))
  {
    match IndexOf(response, "Set-Cookie: ")
    case None =>
    case Some(h) =>
      match IndexFrom(response, "connect.sid=", h)
      case None =>
      case Some(p) =>
        var v := CookieAt(response, p);
        assert ExtractCookie(response) == Some(v);
        assert OccursAt(response, ExtractCookie(response).value, p);
  }

  /** The strtok token at a `connect.sid=` sits there and ends at a `;` or the end. */
  lemma CookieAt(response: string, p: nat) returns (v: string)
    requires OccursAt(response, "connect.sid=", p)
    ensures StrTok(response, p, ';').token == Some(v)
    ensures OccursAt(response, v, p) && (p + |v| == |response| || response[p + |v|] == ';')
  {
    CookieStartsWithMarker(response, p);
    var e := FindChar(response, ';', p);
    v := response[p..e];
  }

  /** strtok at `connect.sid=` returns a token that starts with it. */
  lemma CookieStartsWithMarker(s: string, p: nat)
    requires OccursAt(s, "connect.sid=", p)
    ensures StrTok(s, p, ';').token == Some(s[p..FindChar(s, ';', p)])
    ensures "connect.sid=" <= StrTok(s, p, ';').token.value
  {
    assert s[p..p + 12] == "connect.sid=";
    forall j | p <= j < p + 12
      ensures s[j] != ';'
    {
      assert s[j] == "connect.sid="[j - p];
    }
    var e := FindChar(s, ';', p);
    assert ';' !in s[p..e] by {
      forall i | 0 <= i < e - p
        ensures s[p..e][i] != ';'
      {
        assert s[p..e][i] == s[p + i];
      }
    }
    StrTokFrom(s, p, ';', e);
    assert s[p..e][..12] == "connect.sid=";
  }

  /** strtok at a non-delimiter returns the run up to the next delimiter. */
  lemma StrTokFrom(s: string, from: nat, d: char, e: nat)
    requires from < e <= |s| && (e == |s| || s[e] == d) && d !in s[from..e]
    ensures StrTok(s, from, d) == Tok(Some(s[from..e]), if e < |s| then e + 1 else |s|)
  {
    NoCharBetween(s, d, from, e);
    var f := FindChar(s, d, from);
    assert !(f < e);
    assert !(e < f);
  }

  lemma NoCharBetween(s: string, c: char, from: nat, to: nat)
    requires from <= to <= |s| && c !in s[from..to]
    ensures forall j :: from <= j < to ==> s[j] != c
  {
    forall j | from <= j < to
      ensures s[j] != c
    {
      assert s[j] == s[from..to][j - from];
    }
  }

  /** The cookie is exactly the span between the marker and the `;`. */
  lemma CookieSpan(response: string, h: nat, p: nat, e: nat)
    requires FirstAt(response, "Set-Cookie: ", 0, h)
    requires FirstAt(response, "connect.sid=", h, p)
    requires p < e <= |response| && (e == |response| || response[e] == ';')
    requires ';' !in response[p..e]
    ensures ExtractCookie(response) == Some(response[p..e])
  {
    IndexFromFirst(response, "Set-Cookie: ", 0, h);
    IndexFromFirst(response, "connect.sid=", h, p);
    StrTokFrom(response, p, ';', e);
  }

  /**
   * The bearer token: three strtok calls on `"` starting at the first
   * `token`; the third token is the value.
   */
  function ExtractToken(response: string): (r: Option<string>)
    ensures (forall i :: !OccursAt(response, "token", i)) ==> r.None?
    ensures r.Some? ==> r.value != [] && '"' !in r.value
  {
    match IndexOf(response, "token")
    case None => None
    case Some(t) =>
      var name := StrTok(response, t, '"');
      var colon := StrTok(response, name.next, '"');
      StrTok(response, colon.next, '"').token
  }

  /** The token is text of the reply, ended by a `"` or by the end of the reply. */
  lemma TokenInReply(response: string)
    ensures var r := ExtractToken(response);
      r.Some? ==> exists p :: (OccursAt(response, r.value, p) &&
        (p + |r.value| == |response| || response[p + |r.value|] == '"'))
  {
    match IndexOf(response, "token")
    case None =>
    case Some(t) =>
      var name := StrTok(response, t, '"');
      var colon := StrTok(response, name.next, '"');
      StrTokSpan(response, colon.next, '"');
  }

  /**
   * From `t` on, the first three `"` are at q1, q2 and q3, with text
   * between each two of them.
   */
  predicate QuotesAfter(response: string, t: nat, q1: nat, q2: nat, q3: nat) {
    t < q1 && q1 + 1 < q2 && q2 + 1 < q3 < |response| &&
    response[q1] == '"' && response[q2] == '"' && response[q3] == '"' &&
    '"' !in response[t..q1] && '"' !in response[q1 + 1..q2] && '"' !in response[q2 + 1..q3]
  }

  /**
   * In `..."token"<sep>"<value>"...`, with a non-empty separator and value
   * and no other `"` in between, the token is the value: the text between
   * the second and third `"` after `token`.
   */
  lemma TokenBetweenQuotes(response: string, t: nat, q1: nat, q2: nat, q3: nat)
    requires IndexOf(response, "token") == Some(t)
    requires QuotesAfter(response, t, q1, q2, q3)
    ensures ExtractToken(response) == Some(response[q2 + 1..q3])
  {
    QuotedSpans(response, t, q1, q2, q3);
    ThirdToken(response, t, q1 + 1, q2 + 1, response[q2 + 1..q3]);
  }

  /** The three strtok calls on `"`, from `t`: two quoted spans, then the value. */
  lemma QuotedSpans(response: string, t: nat, q1: nat, q2: nat, q3: nat)
    requires QuotesAfter(response, t, q1, q2, q3)
    ensures StrTok(response, t, '"').next == q1 + 1
    ensures StrTok(response, q1 + 1, '"').next == q2 + 1
    ensures StrTok(response, q2 + 1, '"').token == Some(response[q2 + 1..q3])
  {
    StrTokFrom(response, t, '"', q1);
    StrTokFrom(response, q1 + 1, '"', q2);
    StrTokFrom(response, q2 + 1, '"', q3);
  }

  /** The token is read by the third strtok call, resuming where the second left off. */
  lemma ThirdToken(response: string, t: nat, n1: nat, n2: nat, v: string)
    requires IndexOf(response, "token") == Some(t)
    requires StrTok(response, t, '"').next == n1
    requires StrTok(response, n1, '"').next == n2
    requires StrTok(response, n2, '"').token == Some(v)
    ensures ExtractToken(response) == Some(v)
  {
  }

  /**
   * strstr(response, "[") or strstr(response, "{"): the rest of the
   * response from the first `c`, or None when there is none.
   */
  function SliceFrom(response: string, c: char): (r: Option<string>)
    ensures r.Some? <==> c in response
    ensures r.Some? ==> |r.value| <= |response| && r.value == response[|response| - |r.value|..]
    ensures r.Some? ==> 0 < |r.value| && r.value[0] == c && c !in response[..|response| - |r.value|]
  {
    var k := FindChar(response, c, 0);
    if k < |response| then Some(response[k..]) else None
  }

  /**
   * A reply that opens with a `Set-Cookie: ` header whose value is the
   * session cookie followed by `;` yields exactly that cookie.
   */
  lemma CookieFromHeader(v: string, rest: string)
    requires "connect.sid=" <= v && ';' !in v
    ensures ExtractCookie("Set-Cookie: " + v + ";" + rest) == Some(v)
  {
    var header := "Set-Cookie: ";
    var r := header + v + ";" + rest;
    assert r[..12] == header && r[12..12 + |v|] == v && r[12 + |v|] == ';';
    assert FirstAt(r, header, 0, 0);
    assert OccursAt(r, "connect.sid=", 12) by {
      assert r[12..24] == v[..12];
    }
    forall j | 0 <= j < 12
      ensures !OccursAt(r, "connect.sid=", j)
    {
      assert r[j] == header[j];
      Mismatch(r, "connect.sid=", j, 0);
    }
    CookieSpan(r, 0, 12, 12 + |v|);
  }

  /** A login reply carrying the session cookie before its attributes. */
  lemma CookieExample()
    ensures ExtractCookie("Set-Cookie: connect.sid=abc123; Path=/") == Some("connect.sid=abc123")
  {
    assert "Set-Cookie: connect.sid=abc123; Path=/" == "Set-Cookie: " + "connect.sid=abc123" + ";" + " Path=/";
    CookieFromHeader("connect.sid=abc123", " Path=/");
  }

  /** A reply that opens with a `token` member yields that member's value. */
  lemma TokenFromMember(v: string, rest: string)
    requires v != [] && '"' !in v
    ensures ExtractToken("{\"token\":\"" + v + "\"" + rest) == Some(v)
  {
    var r := "{\"token\":\"" + v + "\"" + rest;
    MemberName(v, rest);
    IndexFromFirst(r, "token", 0, 2);
    MemberQuotes(v, rest);
    TokenBetweenQuotes(r, 2, 7, 9, 10 + |v|);
  }

  /** The first `token` in such a reply is the member name, at 2. */
  lemma MemberName(v: string, rest: string)
    ensures FirstAt("{\"token\":\"" + v + "\"" + rest, "token", 0, 2)
  {
    var opening := "{\"token\":\"";
    var r := opening + v + "\"" + rest;
    assert r[..10] == opening;
    assert OccursAt(r, "token", 2) by {
      assert r[2..7] == opening[2..7];
    }
    Mismatch(r, "token", 0, 0);
    Mismatch(r, "token", 1, 0);
  }

  /** Where the quotes of such a reply are, and where there are none. */
  lemma MemberQuotes(v: string, rest: string)
    requires v != [] && '"' !in v
    ensures var r := "{\"token\":\"" + v + "\"" + rest;
      QuotesAfter(r, 2, 7, 9, 10 + |v|) && r[10..10 + |v|] == v
  {
    var opening := "{\"token\":\"";
    var r := opening + v + "\"" + rest;
    assert r[..10] == opening && r[10..10 + |v|] == v && r[10 + |v|] == '"';
    assert r[2..7] == opening[2..7] && r[8..9] == opening[8..9];
  }

  /** The access reply: the value of the `token` member. */
  lemma TokenExample()
    ensures ExtractToken("{\"token\":\"xyz.789\"}") == Some("xyz.789")
  {
    assert "{\"token\":\"xyz.789\"}" == "{\"token\":\"" + "xyz.789" + "\"" + "}";
    TokenFromMember("xyz.789", "}");
  }

  /** A reply opening with an `error` member whose message starts with `Credentials`. */
  lemma CredentialsFromMember(msg: string)
    requires "Credentials" <= msg
    ensures InspectLogin("{\"error\":\"" + msg) == BadCredentials
  {
    var r := "{\"error\":\"" + msg;
    ErrorMember(msg);
    LoginFailureKind(r, 2);
  }

  /** Where `error` and `Credentials` sit in such a reply. */
  lemma ErrorMember(msg: string)
    requires "Credentials" <= msg
    ensures var r := "{\"error\":\"" + msg;
      FirstAt(r, "error", 0, 2) && OccursAt(r, "Credentials", 10)
  {
    var opening := "{\"error\":\"";
    var r := opening + msg;
    assert r[..10] == opening && r[10..] == msg;
    assert OccursAt(r, "error", 2) by {
      assert r[2..7] == opening[2..7];
    }
    Mismatch(r, "error", 0, 0);
    Mismatch(r, "error", 1, 0);
    assert r[10..21] == msg[..11];
  }

  /** A rejected password is told apart from an unknown user. */
  lemma CredentialsExample()
    ensures InspectLogin("{\"error\":\"" + "Credentials not valid\"}") == BadCredentials
  {
    CredentialsFromMember("Credentials not valid\"}");
  }

  /** A listing is sliced at its first `[`, past any text before it. */
  lemma ListingExample()
    ensures SliceFrom("{\"other\":1}[{\"id\":1}]", '[') == Some("[{\"id\":1}]")
  {
    var r := "{\"other\":1}[{\"id\":1}]";
    assert r[..11] == "{\"other\":1}" && r[11..] == "[{\"id\":1}]" by {
      assert r == "{\"other\":1}" + "[{\"id\":1}]";
    }
    forall j | 0 <= j < 11
      ensures r[j] != '['
    {
      assert r[j] == r[..11][j];
    }
    FindCharFirst(r, '[', 0, 11);
  }
}
