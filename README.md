# PCOM homework 4 client: a Dafny model

This project models the core of a command-line client for a library-catalogue
HTTP API. The client builds HTTP/1.1 request text by hand and inspects the raw
response text with fixed markers. The model has six modules:

- `CStrings` (`cstrings.dfy`): the C library routines the client relies on, as
  pure functions over `string`. These are `strstr`, `strchr`, one `strtok`
  call with its resume point, `isdigit`, and the `%d` conversion of `sprintf`.
  `%d` has a decimal reader as its partner.
- `MessageFormat` (`message_format.dfy`): the layout of section 2.1 of RFC 9112.
  A head of CRLF-terminated lines is followed by an empty line and the body.
  `SplitHead` is the reader the builders are proved against. `FieldValue`
  looks up a header field by name.
- `Requests` (`requests.dfy`): `compute_get_request`, `compute_post_request`
  and `compute_delete_request`. Each is a method that appends lines to a
  `MessageBuffer`, proved to produce exactly `Message(head, body)` for a
  specified head. Read-back lemmas state what a server parses from that text.
- `Responses` (`responses.dfy`): the response scans of `client.c`. They are
  error detection with the `Credentials` sub-check, the session cookie, the
  bearer token, and the `[` / `{` body slices.
- `Validation` (`validation.dfy`): the input checks. These are spaces in
  credentials, empty book fields, and the page-count / id digit loop, both as
  written and corrected.
- `Session` (`session.dfy`): `main`'s command loop. `Step` and `Replay`
  specify it. The `Client` class holds `logged_in`, `entered_library`,
  `cookie` and `jwt`, with one method per command and `Run` for the loop.

Assumptions about code outside the model:

- `compute_message` (in `helpers.c`) appends its line and CRLF.
- `BUFLEN` is 4096 and `LINELEN` is 1000.
- `helpers.c` and `helpers.h` are not part of this model.
- Buffer capacity is a precondition of the builders (`Fits`).

Notable behaviours of the code:

- Error detection looks for `error` in the whole response, headers included,
  not only in the body.
- A POST never carries a Cookie field, because `compute_post_request` has no
  cookie parameter.
- No book command checks that a bearer token is held. A failed
  `enter_library` after a successful one leaves the library flag set with no
  token, and the book commands then send no credential
  (`Session.StaleLibraryFlag`).

## Model

| member | source | states |
|---|---|---|
| CStrings.IndexFrom | client.c:156-158 | strstr from a position: the first occurrence at or after it, or None when there is none |
| CStrings.IndexOf | client.c:79 | strstr: the first occurrence of the pattern, or None when it occurs nowhere |
| CStrings.IndexFromFirst | client.c:144 | an occurrence with none before it is exactly what strstr returns |
| CStrings.FindChar | client.c:226 | the scan of strchr/strtok: the first index holding the character, or the length |
| CStrings.FindCharFirst | client.c:226 | the first occurrence of a character is exactly what the scan returns |
| CStrings.SkipChar | client.c:159 | strtok's skip of leading delimiters: the first index not holding the delimiter |
| CStrings.HasChar | client.c:52 | strchr(s, c) != NULL holds exactly when c occurs in s |
| CStrings.StrTok | client.c:159 | one strtok call: the resume point never moves back; no token leaves nothing to resume; a token is non-empty and free of the delimiter |
| CStrings.StrTokSpan | client.c:159 | strtok gives no token iff only delimiters remain; a token is the text after the skipped delimiters, ended by a delimiter (resume after it) or by the end |
| CStrings.IsDigit | client.c:289 | isdigit: exactly the characters `0` to `9` |
| CStrings.Mismatch | client.c:156-158 | a pattern does not occur where one of its characters differs |
| CStrings.Decimal | requests.c:69-70 | %d of a length: a non-empty string of digits, with no leading zero unless the value is 0 |
| CStrings.ParseDecimal | requests.c:70 | the reader of %d output: defined exactly on non-empty digit strings |
| CStrings.DecimalRoundTrip | requests.c:69-71 | reading back what %d wrote gives the number written |
| MessageFormat.SplitHead | requests.c:37-38 | reading a message: head lines up to the first empty line, then the body; laying them out again gives the text back |
| MessageFormat.PrependLine | requests.c:19 | the line before the first CRLF, put in front of the rest of the head, lays out the whole text again |
| MessageFormat.SplitHeadMessage | requests.c:73-77 | a message laid out from a head of well-formed lines reads back as exactly that head and body |
| MessageFormat.FirstCrlf | requests.c:19 | the first CRLF after a line without a line feed ends that line |
| MessageFormat.FieldIndex | requests.c:22-35 | the index of the first header field with the given name, none earlier |
| MessageFormat.FieldValue | requests.c:22-35 | a field's value is None exactly when no field has that name, else the text after `name: ` |
| MessageFormat.FieldAt | requests.c:22-35 | a field with no same-named field before it is the one found, with its value |
| MessageFormat.OtherField | requests.c:22-35 | a field line is not a field of a name it differs from |
| Requests.MessageBuffer.constructor | requests.c:13 | the message buffer starts empty (calloc) |
| Requests.RequestLine | requests.c:18-19 | the request line `<verb> <url> HTTP/1.1` that `sprintf` formats first |
| Requests.GetHead | requests.c:18-35 | the GET head: request line, `Host`, `Cookie` when cookies are given, `Authorization: Bearer` when a token is given |
| Requests.DeleteHead | requests.c:89-106 | the DELETE head: GET's lines with method DELETE |
| Requests.PostHead | requests.c:51-71 | the POST head: request line, `Host`, `Authorization: Bearer` when a jwt is given, `Content-Type`, `Content-Length` as `%d` of the body's length |
| Requests.MessageBuffer.ComputeMessage | requests.c:19 | compute_message appends the line and CRLF, within the buffer's capacity |
| Requests.MessageBuffer.Concat | requests.c:77 | strcat appends the body verbatim |
| Requests.JoinSplit | requests.c:19-38 | laying out two runs of lines is laying out each in turn |
| Requests.NextLineFits | requests.c:19-38 | writing line k of a head that fits stays within LINELEN and the buffer, and extends the text by that line and CRLF |
| Requests.WholeHead | requests.c:73-77 | once every line is written, the empty line and the body complete the message within the buffer |
| Requests.BodilessLines | requests.c:18-35 | the GET/DELETE head has request line, Host, Cookie when given, then Authorization when given, and no other line |
| Requests.PostLines | requests.c:51-71 | the POST head has request line, Host, Authorization when given, Content-Type, Content-Length, and no other line |
| Requests.ComputeGetRequest | requests.c:12-42 | the GET text is exactly the request line, Host, optional Cookie, optional Bearer, the empty line, no body |
| Requests.ComputeDeleteRequest | requests.c:84-115 | the DELETE text has GET's shape with method DELETE |
| Requests.ComputeBodiless | requests.c:18-38 | the shared GET/DELETE sequence of appends produces the specified head and an empty body |
| Requests.ComputePostRequest | requests.c:45-82 | the POST text is exactly request line, Host, optional Bearer, Content-Type, Content-Length, empty line, then the body |
| Requests.BodilessSplit | requests.c:37-38 | GET/DELETE text reads back as its head with an empty body |
| Requests.PostSplit | requests.c:65-77 | POST text reads back as its head with the target as body, the decimal length having no line feed |
| Requests.BodilessFields | requests.c:26-35 | Cookie present iff cookies given, Authorization iff a token is given, Cookie before Authorization, no Content fields |
| Requests.BodilessField | requests.c:26-35 | per field name, the value a server reads from a GET/DELETE head |
| Requests.PostFields | requests.c:59-71 | POST fields: Authorization iff a jwt is given and first, then Content-Type, then Content-Length; never a Cookie |
| Requests.PostField | requests.c:59-71 | per field name, the value a server reads from a POST head |
| Requests.GetRequestReadBack | requests.c:18-38 | parsed GET text is exactly the GET head and no body; Host as given, Cookie/Bearer exactly as given and in that order, no Content fields |
| Requests.DeleteRequestReadBack | requests.c:89-111 | parsed DELETE text is exactly the DELETE head and no body, with the fields as for GET |
| Requests.PostRequestReadBack | requests.c:51-77 | parsed POST text is exactly the POST head with the target as body, which ends the text; Content-Length reads back as its length; Content-Type always, Cookie never |
| Responses.IsError | client.c:79-83 | a response fails exactly when `error` occurs anywhere in it |
| Responses.InspectLogin | client.c:144-163 | login accepts exactly the replies without `error`, and then takes the extracted cookie |
| Responses.LoginFailureKind | client.c:144-151 | a failed login is a credentials error iff `Credentials` occurs at or after the first `error`, else an unknown user |
| Responses.ExtractCookie | client.c:156-162 | no `Set-Cookie: ` gives no cookie; a cookie starts with `connect.sid=` and has no `;` |
| Responses.CookieInReply | client.c:156-162 | a cookie is text of the reply, ended by a `;` or by the end of the reply |
| Responses.CookieAt | client.c:158-159 | the strtok token at a `connect.sid=` lies there and ends at a `;` or the end |
| Responses.CookieStartsWithMarker | client.c:158-159 | strtok at `connect.sid=` returns the text up to the next `;`, which starts with the marker |
| Responses.StrTokFrom | client.c:159 | strtok at a delimiter-free run returns that run and resumes after the delimiter that ends it |
| Responses.NoCharBetween | client.c:159 | a character absent from a slice is absent at each of its positions |
| Responses.CookieSpan | client.c:156-162 | the cookie is exactly the text from the first `connect.sid=` after the first `Set-Cookie: ` up to the next `;` or the end |
| Responses.ExtractToken | client.c:188-193 | no `token` gives no token; a token is non-empty and has no `"` |
| Responses.TokenInReply | client.c:188-193 | a token is text of the reply, ended by a `"` or by the end of the reply |
| Responses.TokenBetweenQuotes | client.c:188-193 | with the first `token` at t, the first three `"` after it at q1 < q2 < q3, and both the separator between q1 and q2 and the value between q2 and q3 non-empty, the token is the value; an empty value is skipped by strtok and is not covered |
| Responses.QuotedSpans | client.c:190-192 | the three strtok calls on `"` from t: the first two resume after the first two quotes, the third returns the text before the third quote |
| Responses.ThirdToken | client.c:190-192 | the token is what the third strtok call returns, resuming where the second stopped |
| Responses.SliceFrom | client.c:226-229 | the slice exists iff the marker occurs; it is the suffix starting at the first marker |
| Responses.CookieFromHeader | client.c:156-162 | a reply opening with `Set-Cookie: ` and a cookie value ended by `;` yields exactly that value |
| Responses.CookieExample | client.c:156-162 | `Set-Cookie: connect.sid=abc123; Path=/` gives `connect.sid=abc123` |
| Responses.TokenFromMember | client.c:188-193 | a reply opening with a `token` member yields exactly its (non-empty, quote-free) value |
| Responses.MemberName | client.c:188 | in such a reply the first `token` is the member name |
| Responses.MemberQuotes | client.c:190-192 | in such a reply the three quotes after `token` enclose the separator and the value |
| Responses.TokenExample | client.c:188-193 | `{"token":"xyz.789"}` gives `xyz.789` |
| Responses.CredentialsFromMember | client.c:144-147 | a reply opening with an `error` member whose message starts with `Credentials` is an invalid-credentials failure |
| Responses.ErrorMember | client.c:144-147 | in such a reply the first `error` is the member name and `Credentials` follows it |
| Responses.CredentialsExample | client.c:144-147 | `{"error":"Credentials not valid"}` is an invalid-credentials failure |
| Responses.ListingExample | client.c:226-229 | `{"other":1}[{"id":1}]` is sliced to `[{"id":1}]` |
| Validation.CheckCredentials | client.c:52-64 | a space in the username is reported first, then a space in the password; accepted iff neither has one |
| Validation.HasEmptyField | client.c:278-286 | add_book rejects exactly when one of the five fields is empty |
| Validation.CheckDigitsAsWritten | client.c:288-298 | the loop as written accepts iff the input is non-empty and every character but the last is a digit |
| Validation.CheckDigits | client.c:353-359 | the corrected check accepts iff the input is non-empty and all digits |
| Validation.LastCharUnchecked | client.c:411-417 | `12a` passes the loop as written but is not a number |
| Validation.DigitChecksAgree | client.c:288-298 | the two checks differ only in the last character |
| Validation.DigitsAreNumber | client.c:353-359 | the corrected check accepts exactly what reads back as a decimal number |
| Session.BookId | client.c:368 | a path has an id exactly when it lies under the books collection |
| Session.BookPath | client.c:368 | `sprintf(url, "%s/%s", BOOKS_ACCESS, id)`: the books collection path, a slash, then the id |
| Session.BookPathRoundTrip | client.c:426 | the id is recovered from `BOOKS_ACCESS/<id>`, so distinct ids give distinct paths |
| Session.WireCredentials | requests.c:26-35 | on the wire, Cookie carries the request's cookie and Authorization its bearer token, each exactly when given |
| Session.Text | client.c:362-370 | the request text a command sends: the builder's message for the request's head and body |
| Session.Step | client.c:488-561 | one pass of main's loop: from the state, the command and the reply, the new state, the request sent if any, and the message shown |
| Session.Replay | client.c:488-561 | the whole loop over a run of commands, each answered by its reply, stopping after exit |
| Session.ReplayCounts | client.c:488-561 | every command up to the first exit shows one message and sends at most one request; with no exit, every command runs |
| Session.StepKeepsInv | client.c:488-561 | every command keeps: logged in iff a cookie is held, library only when logged in, a jwt only after entry |
| Session.ReplayKeepsInv | client.c:488-561 | the invariant holds after any run of commands |
| Session.ReachableKeepsInv | client.c:477-486 | the initial state satisfies the invariant, so every reachable state does |
| Session.OnlySessionCommandsChangeState | client.c:488-561 | only login, enter_library and logout change the flags or the slots |
| Session.LoginRefusedWhenLoggedIn | client.c:499-503 | login while logged in is refused, sends nothing, changes nothing |
| Session.LoggedInIffCookie | client.c:504-507 | after login, logged_in is set iff credentials passed, the reply has no `error` and a cookie was extracted, and holds that cookie |
| Session.EnterNeedsLogin | client.c:509-513 | enter_library needs a login; otherwise nothing is sent or changed |
| Session.BookCommandsNeedLibrary | client.c:518-545 | the four book commands need entered_library; otherwise nothing is sent or changed |
| Session.LogoutResets | client.c:546-558 | logout needs a login and then clears both flags and both slots |
| Session.UnknownChangesNothing | client.c:559-561 | an unknown command shows an error and changes nothing |
| Session.StepOneCredential | client.c:488-561 | every request sent carries at most one of cookie and bearer token |
| Session.ReplayOneCredential | client.c:488-561 | every request of a whole run carries at most one credential |
| Session.ValidationBeforeRequest | client.c:288-298 | input rejected by the credentials check, the empty-field check or the corrected digit check sends no request |
| Session.NoSliceOnError | client.c:223-230 | a reply containing `error` is never sliced into a listing or a book |
| Session.ErrorReplyReported | client.c:433-437 | for register, login and the four book commands, an `error` reply to a sent request gives that command's failure message and leaves the state alone; enter_library (which never tests for `error`) and logout (which resets whatever the reply) are excluded |
| Session.ShownIsSlice | client.c:375-382 | a shown listing or book is the reply from its first `[` or `{` |
| Session.StaleLibraryFlag | client.c:514-517 | a failed re-entry keeps entered_library but drops the jwt, so get_books then sends no credential |
| Session.LoginWithoutCookie | client.c:152-163 | a reply with neither `error` nor `Set-Cookie: ` reports success yet opens no session |
| Session.Client.constructor | client.c:477-486 | main starts logged out, outside the library, with no cookie and no jwt |
| Session.Client.HandleRegister | client.c:492-493 | the register branch does what `Step` specifies and changes no state |
| Session.Client.HandleLogin | client.c:498-507 | the login branch moves the state as `Step` specifies |
| Session.Client.HandleEnterLibrary | client.c:508-517 | the enter_library branch moves the state as `Step` specifies |
| Session.Client.HandleGetBooks | client.c:518-524 | the get_books branch sends and shows what `Step` specifies |
| Session.Client.HandleAddBook | client.c:525-531 | the add_book branch validates, sends and shows what `Step` specifies |
| Session.Client.HandleGetBook | client.c:532-538 | the get_book branch validates, sends and shows what `Step` specifies |
| Session.Client.HandleDeleteBook | client.c:539-545 | the delete_book branch validates, sends and shows what `Step` specifies |
| Session.Client.HandleLogout | client.c:546-558 | the logout branch sends and resets as `Step` specifies |
| Session.Client.Execute | client.c:492-561 | one pass of the loop is one `Step` |
| Session.ReplayAt | client.c:488-561 | one turn of the loop: what was sent and shown so far, then command i's step, then the replay of the rest (nothing after exit) |
| Session.Client.Run | client.c:488-561 | the loop's requests, messages and final state are `Replay`'s, stopping at exit |

## Left out

- Sockets and transport are not modelled. This covers `open_connection`, `send_to_server`, `receive_from_server` and `close`. Each reply is a parameter of the command it answers.
- Terminal I/O is not modelled: `fgets`/`scanf` prompting, newline stripping, and the printed text. A `Report` records which message is shown.
- JSON payloads built with parson are an opaque `payload` string. Parson is a foreign library.
- `malloc`, `free`, `strdup` and `exit` on allocation failure are not modelled.
- Session.Client.HandleEnterLibrary: `enter_library` copies the token after freeing the reply that holds it (client.c:195-202). The model keeps the token text as extracted and does not model that use after free.
- Requests.ComputeGetRequest, Requests.ComputePostRequest, Requests.ComputeDeleteRequest: buffer overflow past BUFLEN or LINELEN is excluded by the precondition `Fits`, not modelled. `compute_message` and the BUFLEN/LINELEN values come from `helpers.c`/`helpers.h`, which are not part of this model.
- Requests.ComputePostRequest: `int length = strlen(target)` is not modelled as a 32-bit int, because `Fits` bounds the body far below its range.
- Responses.ExtractCookie: when `Set-Cookie: ` occurs with no `connect.sid=` after it, the source passes NULL to `strtok`, which is undefined. The model gives no cookie in that case.
- Session.Step, Session.ValidationBeforeRequest, Session.Client.HandleAddBook, Session.Client.HandleGetBook, Session.Client.HandleDeleteBook use the corrected digit check (see Findings). The as-written loop is modelled separately as `Validation.CheckDigitsAsWritten`.
- Strings are sequences of characters in which each `char` stands for one byte and no NUL occurs, so `|s|` is `strlen(s)`. Multi-byte text, and a NUL inside input that would cut `strstr`, `strtok` or `sprintf` short, are not modelled.
- Session.Text: the session's requests are assumed to fit the builders' BUFLEN and LINELEN buffers; `Fits` is not established for them. The LINELEN `url` buffer that get_book and delete_book fill with `sprintf` (client.c:362-368, client.c:420-426) is not bounded either.
- Session.Client.HandleLogin: a username or password longer than an `fgets` buffer is not split across reads. Each command's input is taken whole.

## Findings

| source | as written | input that shows it | evidently intended | confidence | as-written member | corrected member |
|---|---|---|---|---|---|---|
| client.c:288-298 | the loop stops at `strlen - 1`, so it never checks the last character; the same loop guards ids at client.c:353-359 and client.c:411-417 | page count or id `12a`: accepted, and `/api/v1/tema/library/books/12a` is requested | reject anything that is not a non-empty run of digits | not executed | Validation.CheckDigitsAsWritten, Validation.LastCharUnchecked | Validation.CheckDigits |
