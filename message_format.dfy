/*
 * The HTTP/1.1 message layout of section 2.1 of RFC 9112 as far as the
 * client uses it: a head of CRLF-terminated lines (the request line, then
 * one line per header field), an empty line, then the body.
 *
 * `Message` lays a head and a body out as text; `SplitHead` reads text back
 * into a head and a body, and `FieldValue` looks a header field up by name.
 * The reader is the partner the request builder is proved against.
 */
module MessageFormat {
  import opened CStrings

  const CRLF := "\r\n"

  /** Each line followed by CRLF, in order. */
  function Join(lines: seq<string>): string {
    if lines == [] then "" else lines[0] + CRLF + Join(lines[1..])
  }

  /** The head's lines, the empty line that ends the head, then the body. */
  function Message(head: seq<string>, body: string): string {
    Join(head) + CRLF + body
  }

  /** A value that can sit on a head line without ending it early. */
  predicate NoLineFeed(s: string) {
    '\n' !in s
  }

  /** A line a head can carry and be read back from: non-empty, no line feed. */
  predicate LineOk(line: string) {
    line != [] && NoLineFeed(line)
  }

  /**
   * Reads the lines up to the first empty one; what follows that empty
   * line is the body. None when the text ends before an empty line.
   */
  function SplitHead(s: string): (r: Option<(seq<string>, string)>)
    ensures r.Some? ==> Message(r.value.0, r.value.1) == s
    ensures r.Some? ==> forall k :: 0 <= k < |r.value.0| ==> r.value.0[k] != []
    decreases |s|
  {
    match IndexOf(s, CRLF)
    case None => None
    case Some(i) =>
      assert s[i..i + 2] == CRLF;
      if i == 0 then
        assert s == CRLF + s[2..];
        Some(([], s[2..]))
      else
        match SplitHead(s[i + 2..])
        case None => None
        case Some(rest) =>
          PrependLine(s, i, rest.0, rest.1);
          Some(([s[..i]] + rest.0, rest.1))
  }

  /** The line before the first CRLF, put back in front of the rest's head. */
  lemma PrependLine(s: string, i: nat, head: seq<string>, body: string)
    requires 0 < i && i + 2 <= |s| && s[i..i + 2] == CRLF
    requires Message(head, body) == s[i + 2..]
    requires forall k :: 0 <= k < |head| ==> head[k] != []
    ensures Message([s[..i]] + head, body) == s
    ensures forall k :: 0 <= k < |[s[..i]] + head| ==> ([s[..i]] + head)[k] != []
  {
    JoinCons(s[..i], head);
    assert s == s[..i] + CRLF + s[i + 2..];
  }

  lemma JoinCons(line: string, lines: seq<string>)
    ensures Join([line] + lines) == line + CRLF + Join(lines)
  {
    assert ([line] + lines)[1..] == lines;
  }

  /** The first CRLF in `line + CRLF + rest` is the one after `line`. */
  lemma FirstCrlf(line: string, rest: string)
    requires '\n' !in line
    ensures IndexOf(line + CRLF + rest, CRLF) == Some(|line|)
  {
    var s := line + CRLF + rest;
    assert OccursAt(s, CRLF, |line|) by {
      assert s[|line|..|line| + 2] == CRLF;
    }
    forall j | 0 <= j < |line|
      ensures !OccursAt(s, CRLF, j)
    {
      assert s[j + 1] == if j + 1 < |line| then line[j + 1] else '\r';
    }
    IndexFromFirst(s, CRLF, 0, |line|);
  }

  /** Reading back a laid-out message gives its head and its body. */
  lemma {:induction false} SplitHeadMessage(head: seq<string>, body: string)
    requires forall k :: 0 <= k < |head| ==> LineOk(head[k])
    ensures SplitHead(Message(head, body)) == Some((head, body))
  {
    var s := Message(head, body);
    if head == [] {
      assert s == "" + CRLF + body;
      FirstCrlf("", body);
      assert s[2..] == body;
    } else {
      var tail := Message(head[1..], body);
      assert s == head[0] + CRLF + tail;
      FirstCrlf(head[0], tail);
      var i := |head[0]|;
      assert s[i + 2..] == tail;
      assert s[..i] == head[0];
      SplitHeadMessage(head[1..], body);
      assert [head[0]] + head[1..] == head;
    }
  }

  /** The line of a header field: its name, a colon and a space, its value. */
  function FieldLine(name: string, value: string): string {
    name + ": " + value
  }

  /** `line` is a header field named `name`: it starts with `name: `. */
  predicate IsField(line: string, name: string) {
    name + ": " <= line
  }

  /** The index of the first field named `name`. */
  function FieldIndex(fields: seq<string>, name: string): (r: Option<nat>)
    ensures r.Some? ==> r.value < |fields| && IsField(fields[r.value], name)
    ensures r.Some? ==> forall k :: 0 <= k < r.value ==> !IsField(fields[k], name)
    ensures r.None? ==> forall k :: 0 <= k < |fields| ==> !IsField(fields[k], name)
  {
    if fields == [] then None
    else if IsField(fields[0], name) then Some(0)
    else match FieldIndex(fields[1..], name)
      case None => None
      case Some(k) => Some(k + 1)
  }

  /** The value of the first field named `name`: the text after `name: `. */
  function FieldValue(fields: seq<string>, name: string): (r: Option<string>)
    ensures r.None? <==> forall k :: 0 <= k < |fields| ==> !IsField(fields[k], name)
    ensures r.Some? ==> exists k :: 0 <= k < |fields| && fields[k] == name + ": " + r.value
  {
    match FieldIndex(fields, name)
    case None => None
    case Some(k) =>
      assert fields[k] == name + ": " + fields[k][|name| + 2..];
      Some(fields[k][|name| + 2..])
  }

  /** A field with no field of the same name before it is the one found. */
  lemma FieldAt(fields: seq<string>, name: string, k: nat, value: string)
    requires k < |fields| && fields[k] == FieldLine(name, value)
    requires forall j :: 0 <= j < k ==> !IsField(fields[j], name)
    ensures FieldIndex(fields, name) == Some(k)
    ensures FieldValue(fields, name) == Some(value)
  {
    assert IsField(fields[k], name);
    var r := FieldIndex(fields, name);
    assert r.Some?;
    assert !(r.value < k);
    assert fields[k][|name| + 2..] == value;
  }

  /** A field line is not a field of a name it differs from. */
  lemma OtherField(name: string, value: string, other: string, i: nat)
    requires i < |name| && i < |other| && name[i] != other[i]
    ensures !IsField(FieldLine(name, value), other)
  {
    assert FieldLine(name, value)[i] == name[i];
    assert (other + ": ")[i] == other[i];
  }
}
