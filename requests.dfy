/*
 * The request builder of requests.c: compute_get_request,
 * compute_post_request and compute_delete_request.
 *
 * Each builder fills a zeroed buffer of BUFLEN characters by repeated calls
 * of compute_message, which appends a line and CRLF, formatting each line
 * first into a scratch buffer of LINELEN characters. compute_message,
 * BUFLEN and LINELEN belong to helpers.c and helpers.h, which are not part
 * of this model: the append is assumed to be `line + CRLF`, and the two
 * capacities are taken as 4096 and 1000. Overflowing either buffer is
 * excluded by a precondition.
 *
 * Each builder is proved to produce `Message(head, body)` for a head given
 * by a function (GetHead, PostHead, DeleteHead); the lemmas read those
 * messages back with `SplitHead` and `FieldValue` and state what a server
 * receives.
 */
module Requests {
  import opened CStrings
  import opened MessageFormat

  const BUFLEN := 4096
  const LINELEN := 1000

  /** The request line of section 3 of RFC 9112. */
  function RequestLine(verb: string, url: string): string {
    verb + " " + url + " HTTP/1.1"
  }

  /** Request line, Host, then Cookie and Bearer Authorization when given. */
  function BodilessHead(verb: string, host: string, url: string,
                        cookies: Option<string>, token: Option<string>): seq<string>
  {
    [RequestLine(verb, url)] + BodilessFieldLines(host, cookies, token)
  }

  function BodilessFieldLines(host: string, cookies: Option<string>, token: Option<string>): seq<string> {
    [FieldLine("Host", host)]
    + (if cookies.Some? then [FieldLine("Cookie", cookies.value)] else [])
    + (if token.Some? then [FieldLine("Authorization", "Bearer " + token.value)] else [])
  }

  function GetHead(host: string, url: string, cookies: Option<string>, token: Option<string>): seq<string> {
    BodilessHead("GET", host, url, cookies, token)
  }

  function DeleteHead(host: string, url: string, cookies: Option<string>, token: Option<string>): seq<string> {
    BodilessHead("DELETE", host, url, cookies, token)
  }

  /** Request line, Host, Bearer Authorization when given, Content-Type, Content-Length. */
  function PostHead(host: string, url: string, contentType: string, target: string,
                    jwt: Option<string>): seq<string>
  {
    [RequestLine("POST", url)] + PostFieldLines(host, contentType, Decimal(|target|), jwt)
  }

  function PostFieldLines(host: string, contentType: string, length: string, jwt: Option<string>): seq<string> {
    [FieldLine("Host", host)]
    + (if jwt.Some? then [FieldLine("Authorization", "Bearer " + jwt.value)] else [])
    + [FieldLine("Content-Type", contentType), FieldLine("Content-Length", length)]
  }

  /** Every line fits the scratch buffer and the message fits the message buffer (with its NUL). */
  predicate Fits(head: seq<string>, body: string) {
    (forall k :: 0 <= k < |head| ==> |head[k]| < LINELEN) && |Message(head, body)| < BUFLEN
  }

  /** The `message` buffer the builders fill, as the text it holds. */
  class MessageBuffer {
    var text: string

    /** calloc(BUFLEN, sizeof(char)): an empty string. */
    constructor ()
      ensures text == ""
    {
      text := "";
    }

    /** compute_message(message, line), assumed to append the line and CRLF. */
    method ComputeMessage(line: string)
      requires |line| < LINELEN
      requires |text| + |line| + |CRLF| < BUFLEN
      modifies this
      ensures text == old(text) + line + CRLF
    {
      text := text + line + CRLF;
    }

    /** strcat(message, target). */
    method Concat(target: string)
      requires |text| + |target| < BUFLEN
      modifies this
      ensures text == old(text) + target
    {
      text := text + target;
    }
  }

  lemma {:induction false} JoinSplit(a: seq<string>, b: seq<string>)
    ensures Join(a + b) == Join(a) + Join(b)
  {
    if a == [] {
      assert a + b == b;
    } else {
      assert (a + b)[1..] == a[1..] + b;
      JoinSplit(a[1..], b);
    }
  }

  /** Writing line k of a head that fits stays within both buffers. */
  lemma NextLineFits(head: seq<string>, body: string, k: nat)
    requires Fits(head, body) && k < |head|
    ensures |head[k]| < LINELEN
    ensures |Join(head[..k])| + |head[k]| + |CRLF| < BUFLEN
    ensures Join(head[..k + 1]) == Join(head[..k]) + head[k] + CRLF
  {
    assert head[..k + 1] == head[..k] + [head[k]];
    JoinSplit(head[..k], [head[k]]);
    assert head == head[..k + 1] + head[k + 1..];
    JoinSplit(head[..k + 1], head[k + 1..]);
  }

  /** All lines written: the head, which leaves room for CRLF and the body. */
  lemma WholeHead(head: seq<string>, body: string, text: string)
    requires Fits(head, body) && text == Join(head[..|head|])
    ensures |text| + |""| + |CRLF| < BUFLEN && |text + "" + CRLF| + |body| < BUFLEN
    ensures text + "" + CRLF + body == Message(head, body)
  {
    assert head[..|head|] == head;
  }

  /** The lines of a GET or DELETE head, by position. */
  lemma BodilessLines(verb: string, host: string, url: string,
                      cookies: Option<string>, token: Option<string>)
    ensures var head := BodilessHead(verb, host, url, cookies, token);
      var n := 2 + (if cookies.Some? then 1 else 0);
      |head| == n + (if token.Some? then 1 else 0) &&
      head[0] == RequestLine(verb, url) && head[1] == FieldLine("Host", host) &&
      (cookies.Some? ==> head[2] == FieldLine("Cookie", cookies.value)) &&
      (token.Some? ==> head[n] == FieldLine("Authorization", "Bearer " + token.value))
  {
  }

  /** The lines of a POST head, by position. */
  lemma PostLines(host: string, url: string, contentType: string, target: string, jwt: Option<string>)
    ensures var head := PostHead(host, url, contentType, target, jwt);
      var n := 2 + (if jwt.Some? then 1 else 0);
      |head| == n + 2 &&
      head[0] == RequestLine("POST", url) && head[1] == FieldLine("Host", host) &&
      (jwt.Some? ==> head[2] == FieldLine("Authorization", "Bearer " + jwt.value)) &&
      head[n] == FieldLine("Content-Type", contentType) &&
      head[n + 1] == FieldLine("Content-Length", Decimal(|target|))
  {
  }

  /** compute_get_request (requests.c). */
  method ComputeGetRequest(host: string, url: string, cookies: Option<string>, token: Option<string>)
    returns (message: string)
    requires Fits(GetHead(host, url, cookies, token), "")
    ensures message == Message(GetHead(host, url, cookies, token), "")
  {
    message := ComputeBodiless("GET", host, url, cookies, token);
  }

  /** compute_delete_request (requests.c). */
  method ComputeDeleteRequest(host: string, url: string, cookies: Option<string>, token: Option<string>)
    returns (message: string)
    requires Fits(DeleteHead(host, url, cookies, token), "")
    ensures message == Message(DeleteHead(host, url, cookies, token), "")
  {
    message := ComputeBodiless("DELETE", host, url, cookies, token);
  }

  /**
   * The line-by-line construction GET and DELETE share; after each
   * compute_message the buffer holds the first k lines of the head.
   */
  method ComputeBodiless(verb: string, host: string, url: string,
                         cookies: Option<string>, token: Option<string>)
    returns (message: string)
    requires Fits(BodilessHead(verb, host, url, cookies, token), "")
    ensures message == Message(BodilessHead(verb, host, url, cookies, token), "")
  {
    ghost var head := BodilessHead(verb, host, url, cookies, token);
    BodilessLines(verb, host, url, cookies, token);
    var buf := new MessageBuffer();
    assert head[..0] == [];
    var line := RequestLine(verb, url);
    NextLineFits(head, "", 0);
    buf.ComputeMessage(line);
    line := FieldLine("Host", host);
    NextLineFits(head, "", 1);
    buf.ComputeMessage(line);
    ghost var k := 2;
    assert buf.text == Join(head[..k]);
    if cookies.Some? {
      line := FieldLine("Cookie", cookies.value);
      NextLineFits(head, "", k);
      buf.ComputeMessage(line);
      k := k + 1;
      assert buf.text == Join(head[..k]);
    }
    if token.Some? {
      line := FieldLine("Authorization", "Bearer " + token.value);
      NextLineFits(head, "", k);
      buf.ComputeMessage(line);
      k := k + 1;
      assert buf.text == Join(head[..k]);
    }
    assert k == |head|;
    WholeHead(head, "", buf.text);
    buf.ComputeMessage("");
    message := buf.text;
    assert message + "" == message;
  }

  /** compute_post_request (requests.c). */
  method ComputePostRequest(host: string, url: string, contentType: string, target: string,
                            jwt: Option<string>)
    returns (message: string)
    requires Fits(PostHead(host, url, contentType, target, jwt), target)
    ensures message == Message(PostHead(host, url, contentType, target, jwt), target)
  {
    ghost var head := PostHead(host, url, contentType, target, jwt);
    PostLines(host, url, contentType, target, jwt);
    var buf := new MessageBuffer();
    assert head[..0] == [];
    var line := RequestLine("POST", url);
    NextLineFits(head, target, 0);
    buf.ComputeMessage(line);
    assert buf.text == Join(head[..1]);
    line := FieldLine("Host", host);
    NextLineFits(head, target, 1);
    buf.ComputeMessage(line);
    ghost var k := 2;
    assert buf.text == Join(head[..k]);
    if jwt.Some? {
      line := FieldLine("Authorization", "Bearer " + jwt.value);
      NextLineFits(head, target, k);
      buf.ComputeMessage(line);
      k := k + 1;
      assert buf.text == Join(head[..k]);
    }
    line := FieldLine("Content-Type", contentType);
    NextLineFits(head, target, k);
    buf.ComputeMessage(line);
    assert buf.text == Join(head[..k + 1]);
    var length := |target|;
    line := FieldLine("Content-Length", Decimal(length));
    NextLineFits(head, target, k + 1);
    buf.ComputeMessage(line);
    assert buf.text == Join(head[..k + 2]) && k + 2 == |head|;
    WholeHead(head, target, buf.text);
    buf.ComputeMessage("");
    buf.Concat(target);
    message := buf.text;
  }

  predicate NoLineFeedIn(o: Option<string>) {
    o.Some? ==> NoLineFeed(o.value)
  }

  /** The header block a GET or DELETE head carries, read back line by line. */
  lemma BodilessSplit(verb: string, host: string, url: string,
                      cookies: Option<string>, token: Option<string>)
    requires NoLineFeed(verb) && NoLineFeed(host) && NoLineFeed(url)
    requires NoLineFeedIn(cookies) && NoLineFeedIn(token)
    ensures var head := BodilessHead(verb, host, url, cookies, token);
      SplitHead(Message(head, "")) == Some((head, ""))
  {
    SplitHeadMessage(BodilessHead(verb, host, url, cookies, token), "");
  }

  /** The header fields of a GET or DELETE head, looked up by name. */
  lemma BodilessFields(verb: string, host: string, url: string,
                       cookies: Option<string>, token: Option<string>)
    ensures var fields := BodilessHead(verb, host, url, cookies, token)[1..];
      FieldValue(fields, "Host") == Some(host) &&
      FieldValue(fields, "Cookie") == cookies &&
      FieldValue(fields, "Authorization") == (if token.Some? then Some("Bearer " + token.value) else None) &&
      FieldValue(fields, "Content-Type") == None &&
      FieldValue(fields, "Content-Length") == None
    ensures var fields := BodilessHead(verb, host, url, cookies, token)[1..];
      cookies.Some? && token.Some? ==>
        FieldIndex(fields, "Cookie") == Some(1) && FieldIndex(fields, "Authorization") == Some(2)
  {
    var fields := BodilessHead(verb, host, url, cookies, token)[1..];
    assert fields == BodilessFieldLines(host, cookies, token);
    BodilessField(host, cookies, token, "Cookie");
    BodilessField(host, cookies, token, "Authorization");
    BodilessField(host, cookies, token, "Content-Type");
    BodilessField(host, cookies, token, "Content-Length");
    FieldAt(fields, "Host", 0, host);
  }

  lemma BodilessField(host: string, cookies: Option<string>, token: Option<string>, name: string)
    requires name in {"Cookie", "Authorization", "Content-Type", "Content-Length"}
    ensures var fields := BodilessFieldLines(host, cookies, token);
      FieldValue(fields, name) ==
        if name == "Cookie" then cookies
        else if name == "Authorization" && token.Some? then Some("Bearer " + token.value)
        else None
    ensures var fields := BodilessFieldLines(host, cookies, token);
      (name == "Cookie" && cookies.Some? ==> FieldIndex(fields, name) == Some(1)) &&
      (name == "Authorization" && token.Some? ==> FieldIndex(fields, name) == Some(|fields| - 1))
  {
    var fields := BodilessFieldLines(host, cookies, token);
    var cookie := if cookies.Some? then cookies.value else "";
    var bearer := if token.Some? then "Bearer " + token.value else "";
    // the names differ in their first or third letter
    var at := if name == "Cookie" || name == "Authorization" then 0 else 2;
    OtherField("Host", host, name, 0);
    if name != "Cookie" {
      OtherField("Cookie", cookie, name, at);
    }
    if name != "Authorization" {
      OtherField("Authorization", bearer, name, 0);
    }
    if name == "Cookie" && cookies.Some? {
      FieldAt(fields, name, 1, cookie);
    } else if name == "Authorization" && token.Some? {
      FieldAt(fields, name, |fields| - 1, bearer);
    } else {
      assert forall k :: 0 <= k < |fields| ==> !IsField(fields[k], name);
    }
  }

  /** The header fields of a POST head, looked up by name. */
  lemma PostFields(host: string, url: string, contentType: string, target: string, jwt: Option<string>)
    ensures var fields := PostHead(host, url, contentType, target, jwt)[1..];
      FieldValue(fields, "Host") == Some(host) &&
      FieldValue(fields, "Cookie") == None &&
      FieldValue(fields, "Authorization") == (if jwt.Some? then Some("Bearer " + jwt.value) else None) &&
      FieldValue(fields, "Content-Type") == Some(contentType) &&
      FieldValue(fields, "Content-Length") == Some(Decimal(|target|))
    ensures var fields := PostHead(host, url, contentType, target, jwt)[1..];
      var k := if jwt.Some? then 2 else 1;
      (jwt.Some? ==> FieldIndex(fields, "Authorization") == Some(1)) &&
      FieldIndex(fields, "Content-Type") == Some(k) &&
      FieldIndex(fields, "Content-Length") == Some(k + 1)
  {
    var length := Decimal(|target|);
    var fields := PostHead(host, url, contentType, target, jwt)[1..];
    assert fields == PostFieldLines(host, contentType, length, jwt);
    PostField(host, contentType, length, jwt, "Cookie");
    PostField(host, contentType, length, jwt, "Authorization");
    PostField(host, contentType, length, jwt, "Content-Type");
    PostField(host, contentType, length, jwt, "Content-Length");
    FieldAt(fields, "Host", 0, host);
  }

  lemma PostField(host: string, contentType: string, length: string, jwt: Option<string>, name: string)
    requires name in {"Cookie", "Authorization", "Content-Type", "Content-Length"}
    ensures var fields := PostFieldLines(host, contentType, length, jwt);
      var k := if jwt.Some? then 2 else 1;
      FieldIndex(fields, name) ==
        if name == "Authorization" then (if jwt.Some? then Some(1) else None)
        else if name == "Content-Type" then Some(k)
        else if name == "Content-Length" then Some(k + 1)
        else None
    ensures var fields := PostFieldLines(host, contentType, length, jwt);
      FieldValue(fields, name) ==
        if name == "Authorization" then (if jwt.Some? then Some("Bearer " + jwt.value) else None)
        else if name == "Content-Type" then Some(contentType)
        else if name == "Content-Length" then Some(length)
        else None
  {
    var fields := PostFieldLines(host, contentType, length, jwt);
    var bearer := if jwt.Some? then "Bearer " + jwt.value else "";
    var k := if jwt.Some? then 2 else 1;
    // Host and Authorization differ from every other name in the first letter,
    // Cookie from Content- in the third, Content-Type from Content-Length in the ninth
    OtherField("Host", host, name, 0);
    if name != "Authorization" {
      OtherField("Authorization", bearer, name, 0);
    }
    if name != "Content-Type" {
      OtherField("Content-Type", contentType, name, if name == "Content-Length" then 8 else if name == "Cookie" then 2 else 0);
    }
    if name == "Authorization" && jwt.Some? {
      FieldAt(fields, name, 1, bearer);
    } else if name == "Content-Type" {
      FieldAt(fields, name, k, contentType);
    } else if name == "Content-Length" {
      FieldAt(fields, name, k + 1, length);
    } else {
      OtherField("Content-Length", length, name, if name == "Cookie" then 2 else 0);
      assert forall j :: 0 <= j < |fields| ==> !IsField(fields[j], name);
    }
  }

  /**
   * What a server reads from compute_get_request's output: the request
   * line, then Host; a Cookie field exactly when cookies are given and a
   * Bearer Authorization field exactly when a token is given, Cookie first;
   * no Content-Type or Content-Length; nothing after the empty line.
   */
  lemma GetRequestReadBack(host: string, url: string, cookies: Option<string>, token: Option<string>)
    requires NoLineFeed(host) && NoLineFeed(url) && NoLineFeedIn(cookies) && NoLineFeedIn(token)
    ensures var parsed := SplitHead(Message(GetHead(host, url, cookies, token), ""));
      parsed == Some((GetHead(host, url, cookies, token), "")) &&
      var fields := parsed.value.0[1..];
      FieldValue(fields, "Host") == Some(host) &&
      FieldValue(fields, "Cookie") == cookies &&
      FieldValue(fields, "Authorization") == (if token.Some? then Some("Bearer " + token.value) else None) &&
      FieldValue(fields, "Content-Type") == None &&
      FieldValue(fields, "Content-Length") == None &&
      (cookies.Some? && token.Some? ==>
        FieldIndex(fields, "Cookie").value < FieldIndex(fields, "Authorization").value)
  {
    BodilessSplit("GET", host, url, cookies, token);
    BodilessFields("GET", host, url, cookies, token);
  }

  /** compute_delete_request's output reads back like GET's, with method DELETE. */
  lemma DeleteRequestReadBack(host: string, url: string, cookies: Option<string>, token: Option<string>)
    requires NoLineFeed(host) && NoLineFeed(url) && NoLineFeedIn(cookies) && NoLineFeedIn(token)
    ensures var parsed := SplitHead(Message(DeleteHead(host, url, cookies, token), ""));
      parsed == Some((DeleteHead(host, url, cookies, token), "")) &&
      var fields := parsed.value.0[1..];
      FieldValue(fields, "Host") == Some(host) &&
      FieldValue(fields, "Cookie") == cookies &&
      FieldValue(fields, "Authorization") == (if token.Some? then Some("Bearer " + token.value) else None) &&
      FieldValue(fields, "Content-Type") == None &&
      FieldValue(fields, "Content-Length") == None &&
      (cookies.Some? && token.Some? ==>
        FieldIndex(fields, "Cookie").value < FieldIndex(fields, "Authorization").value)
  {
    BodilessSplit("DELETE", host, url, cookies, token);
    BodilessFields("DELETE", host, url, cookies, token);
  }

  /**
   * What a server reads from compute_post_request's output: the request
   * line, Host, Bearer Authorization exactly when a jwt is given, then
   * Content-Type and Content-Length, never a Cookie; Content-Length reads
   * back as the length of the body, and the body is `target` itself, at the
   * very end of the message.
   */
  lemma PostRequestReadBack(host: string, url: string, contentType: string, target: string,
                            jwt: Option<string>)
    requires NoLineFeed(host) && NoLineFeed(url) && NoLineFeed(contentType) && NoLineFeedIn(jwt)
    ensures var message := Message(PostHead(host, url, contentType, target, jwt), target);
      var parsed := SplitHead(message);
      |target| <= |message| && message[|message| - |target|..] == target &&
      parsed == Some((PostHead(host, url, contentType, target, jwt), target)) &&
      var fields := parsed.value.0[1..];
      FieldValue(fields, "Host") == Some(host) &&
      FieldValue(fields, "Cookie") == None &&
      FieldValue(fields, "Authorization") == (if jwt.Some? then Some("Bearer " + jwt.value) else None) &&
      FieldValue(fields, "Content-Type") == Some(contentType) &&
      FieldValue(fields, "Content-Length").Some? &&
      ParseDecimal(FieldValue(fields, "Content-Length").value) == Some(|target|)
  {
    var head := PostHead(host, url, contentType, target, jwt);
    var message := Message(head, target);
    PostSplit(host, url, contentType, target, jwt);
    assert message[|message| - |target|..] == target;
    DecimalRoundTrip(|target|);
    PostFields(host, url, contentType, target, jwt);
  }

  /** The header block a POST head carries, read back line by line. */
  lemma PostSplit(host: string, url: string, contentType: string, target: string, jwt: Option<string>)
    requires NoLineFeed(host) && NoLineFeed(url) && NoLineFeed(contentType) && NoLineFeedIn(jwt)
    ensures var head := PostHead(host, url, contentType, target, jwt);
      SplitHead(Message(head, target)) == Some((head, target))
  {
    var length := Decimal(|target|);
    assert '\n' !in length by {
      assert forall i :: 0 <= i < |length| ==> IsDigit(length[i]);
    }
    SplitHeadMessage(PostHead(host, url, contentType, target, jwt), target);
  }
}
