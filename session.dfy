/*
 * The command loop of client.c's main: two flags, `logged_in` and
 * `entered_library`, and the two credential slots `cookie` and `jwt`.
 *
 * `Step` is the specification of one pass of the loop: from the state, the
 * command (with what the user typed) and the server's reply, it gives the
 * new state, the request sent (if any) and which message is shown. The
 * `Client` class is the loop itself, one method per command, each proved
 * against `Step`; `Run` is the `while (true)` loop, proved against
 * `Replay`. The server's replies are parameters: a command that sends no
 * request ignores its reply.
 */
module Session {
  import opened CStrings
  import opened MessageFormat
  import opened Requests
  import opened Responses
  import opened Validation

  const HOST := "34.246.184.49:8080"
  const REGISTER_ACCESS := "/api/v1/tema/auth/register"
  const LOGIN_ACCESS := "/api/v1/tema/auth/login"
  const LIBRARY_ACCESS := "/api/v1/tema/library/access"
  const BOOKS_ACCESS := "/api/v1/tema/library/books"
  const LOGOUT_ACCESS := "/api/v1/tema/auth/logout"
  const PAYLOAD_TYPE := "application/json"

  /** sprintf(url, "%s/%s", BOOKS_ACCESS, id). */
  function BookPath(id: string): string {
    BOOKS_ACCESS + "/" + id
  }

  /** The id a book path names, or None for a path outside the books collection. */
  function BookId(path: string): (r: Option<string>)
    ensures r.Some? <==> BOOKS_ACCESS + "/" <= path
    ensures r.Some? ==> |r.value| == |path| - |BOOKS_ACCESS| - 1
  {
    if BOOKS_ACCESS + "/" <= path then Some(path[|BOOKS_ACCESS| + 1..]) else None
  }

  /** The id is recovered from the path built for it, so distinct ids give distinct paths. */
  lemma BookPathRoundTrip(id: string)
    ensures BookId(BookPath(id)) == Some(id)
  {
    var prefix := BOOKS_ACCESS + "/";
    assert BookPath(id) == prefix + id;
    assert (prefix + id)[..|prefix|] == prefix;
    assert (prefix + id)[|prefix|..] == id;
  }

  /**
   * Which builder the client calls and with what; the host is always HOST
   * and a POST always carries PAYLOAD_TYPE.
   */
  datatype Request =
    | Get(url: string, cookie: Option<string>, token: Option<string>)
    | Post(url: string, payload: string, jwt: Option<string>)
    | Delete(url: string, cookie: Option<string>, token: Option<string>)

  /** The text the builder produces for a request. */
  function Text(q: Request): string {
    match q
    case Get(url, cookie, token) => Message(GetHead(HOST, url, cookie, token), "")
    case Post(url, payload, jwt) => Message(PostHead(HOST, url, PAYLOAD_TYPE, payload, jwt), payload)
    case Delete(url, cookie, token) => Message(DeleteHead(HOST, url, cookie, token), "")
  }

  /** The session cookie a request passes to its builder. */
  function CookieOf(q: Request): Option<string> {
    if q.Post? then None else q.cookie
  }

  /** The bearer token a request passes to its builder. */
  function BearerOf(q: Request): Option<string> {
    match q
    case Get(_, _, token) => token
    case Post(_, _, jwt) => jwt
    case Delete(_, _, token) => token
  }

  /** A request carries at most one of the two credentials. */
  predicate OneCredential(q: Request) {
    CookieOf(q).None? || BearerOf(q).None?
  }

  /** No argument of the request would break a header line. */
  predicate WellFormed(q: Request) {
    NoLineFeed(q.url) && NoLineFeedIn(CookieOf(q)) && NoLineFeedIn(BearerOf(q))
  }

  /**
   * On the wire, the Cookie field carries the request's cookie and the
   * Authorization field its bearer token, each present exactly when given.
   */
  lemma WireCredentials(q: Request)
    requires WellFormed(q)
    ensures var parsed := SplitHead(Text(q));
      parsed.Some? && |parsed.value.0| >= 1 &&
      FieldValue(parsed.value.0[1..], "Cookie") == CookieOf(q) &&
      FieldValue(parsed.value.0[1..], "Authorization") ==
        (if BearerOf(q).Some? then Some("Bearer " + BearerOf(q).value) else None)
  {
    assert NoLineFeed(HOST);
    match q
    case Get(url, cookie, token) =>
      GetRequestReadBack(HOST, url, cookie, token);
    case Post(url, payload, jwt) =>
      assert NoLineFeed(PAYLOAD_TYPE);
      PostRequestReadBack(HOST, url, PAYLOAD_TYPE, payload, jwt);
    case Delete(url, cookie, token) =>
      DeleteRequestReadBack(HOST, url, cookie, token);
  }

  /** The values main keeps between commands. */
  datatype State = State(loggedIn: bool, enteredLibrary: bool, cookie: Option<string>, jwt: Option<string>)

  const Initial := State(false, false, None, None)

  /** One line of input, with what each command goes on to read. */
  datatype Command =
    | Register(username: string, password: string, payload: string)
    | Login(username: string, password: string, payload: string)
    | EnterLibrary
    | GetBooks
    | AddBook(book: Book, payload: string)
    | GetBook(id: string)
    | DeleteBook(id: string)
    | Logout
    | Exit
    | Unknown(name: string)

  /** Which message the client shows; a listing or a book carries what it shows. */
  datatype Report =
    | AlreadyLoggedIn | LoginRequired | LibraryRequired | NotLoggedIn
    | SpaceInUsername | SpaceInPassword | EmptyField | PageCountNotNumber | IdNotNumber
    | UsernameTaken | Registered
    | InvalidCredentials | NoAccount | LoggedIn
    | EnteredLibrary | EnterFailed
    | BooksFailed | BooksListed(listing: Option<string>)
    | AddFailed | BookAdded
    | InvalidId | BookShown(book: Option<string>) | BookDeleted
    | NoSession | LogoutFailed | LoggedOut
    | Exited | InvalidCommand

  datatype Transition = Transition(next: State, request: Option<Request>, report: Report)

  /** The rejection a failed credentials check shows. */
  function CredentialsReport(check: CredentialsCheck): Report
    requires check != CredentialsOk
  {
    if check == UsernameHasSpace then SpaceInUsername else SpaceInPassword
  }

  /** What login shows for the server's reply. */
  function LoginReport(reply: LoginReply): Report {
    match reply
    case BadCredentials => InvalidCredentials
    case UnknownUser => NoAccount
    case Accepted(_) => LoggedIn
  }

  /** The cookie login hands back to main. */
  function LoginCookie(reply: LoginReply): Option<string> {
    if reply.Accepted? then reply.cookie else None
  }

  /** One pass of main's loop (client.c:488-561). */
  function Step(s: State, c: Command, response: string): Transition {
    match c
    case Register(username, password, payload) =>
      var check := CheckCredentials(username, password);
      if check != CredentialsOk then Transition(s, None, CredentialsReport(check))
      else Transition(s, Some(Post(REGISTER_ACCESS, payload, None)),
                      if IsError(response) then UsernameTaken else Registered)
    case Login(username, password, payload) =>
      if s.loggedIn then Transition(s, None, AlreadyLoggedIn)
      else
        var check := CheckCredentials(username, password);
        if check != CredentialsOk then Transition(s.(cookie := None), None, CredentialsReport(check))
        else
          var reply := InspectLogin(response);
          var cookie := LoginCookie(reply);
          Transition(s.(cookie := cookie, loggedIn := s.loggedIn || cookie.Some?),
                     Some(Post(LOGIN_ACCESS, payload, None)), LoginReport(reply))
    case EnterLibrary =>
      if !s.loggedIn then Transition(s, None, LoginRequired)
      else
        var jwt := ExtractToken(response);
        Transition(s.(jwt := jwt, enteredLibrary := s.enteredLibrary || jwt.Some?),
                   Some(Get(LIBRARY_ACCESS, s.cookie, None)),
                   if jwt.Some? then EnteredLibrary else EnterFailed)
    case GetBooks =>
      if !s.enteredLibrary then Transition(s, None, LibraryRequired)
      else Transition(s, Some(Get(BOOKS_ACCESS, None, s.jwt)),
                      if IsError(response) then BooksFailed else BooksListed(SliceFrom(response, '[')))
    case AddBook(book, payload) =>
      if !s.enteredLibrary then Transition(s, None, LibraryRequired)
      else if HasEmptyField(book) then Transition(s, None, EmptyField)
      else if !AllDigits(book.pageCount) then Transition(s, None, PageCountNotNumber)
      else Transition(s, Some(Post(BOOKS_ACCESS, payload, s.jwt)),
                      if IsError(response) then AddFailed else BookAdded)
    case GetBook(id) =>
      if !s.enteredLibrary then Transition(s, None, LibraryRequired)
      else if !AllDigits(id) then Transition(s, None, IdNotNumber)
      else Transition(s, Some(Get(BookPath(id), None, s.jwt)),
                      if IsError(response) then InvalidId else BookShown(SliceFrom(response, '{')))
    case DeleteBook(id) =>
      if !s.enteredLibrary then Transition(s, None, LibraryRequired)
      else if !AllDigits(id) then Transition(s, None, IdNotNumber)
      else Transition(s, Some(Delete(BookPath(id), None, s.jwt)),
                      if IsError(response) then InvalidId else BookDeleted)
    case Logout =>
      if !s.loggedIn then Transition(s, None, NotLoggedIn)
      else if s.cookie.None? then Transition(Initial, None, NoSession)
      else Transition(Initial, Some(Get(LOGOUT_ACCESS, s.cookie, None)),
                      if IsError(response) then LogoutFailed else LoggedOut)
    case Exit => Transition(s, None, Exited)
    case Unknown(_) => Transition(s, None, InvalidCommand)
  }

  /** The requests sent and the messages shown by a run, and where it ends. */
  datatype Outcome = Outcome(last: State, requests: seq<Request>, reports: seq<Report>)

  function Sent(t: Transition): seq<Request> {
    if t.request.Some? then [t.request.value] else []
  }

  /** Runs the loop over the commands, with the k-th reply answering the k-th command; stops at exit. */
  function Replay(s: State, commands: seq<Command>, responses: seq<string>): Outcome
    requires |responses| == |commands|
    decreases |commands|
  {
    if commands == [] then Outcome(s, [], [])
    else
      var t := Step(s, commands[0], responses[0]);
      if commands[0].Exit? then Outcome(t.next, Sent(t), [t.report])
      else
        var rest := Replay(t.next, commands[1..], responses[1..]);
        Outcome(rest.last, Sent(t) + rest.requests, [t.report] + rest.reports)
  }

  /**
   * Every command up to and including the first exit shows exactly one
   * message and sends at most one request; without an exit, every command
   * is run.
   */
  lemma {:induction false} ReplayCounts(s: State, commands: seq<Command>, responses: seq<string>)
    requires |responses| == |commands|
    ensures var o := Replay(s, commands, responses);
      |o.requests| <= |o.reports| <= |commands|
    ensures (forall k :: 0 <= k < |commands| ==> !commands[k].Exit?) ==>
      |Replay(s, commands, responses).reports| == |commands|
    decreases |commands|
  {
    if commands != [] && !commands[0].Exit? {
      var t := Step(s, commands[0], responses[0]);
      ReplayCounts(t.next, commands[1..], responses[1..]);
      assert forall k :: 0 <= k < |commands[1..]| ==> commands[1..][k] == commands[k + 1];
    }
  }

  /**
   * What main keeps true between commands: logged in exactly when holding
   * a cookie, in the library only when logged in, and a jwt only once the
   * library was entered. The converse of the last fails: see
   * `StaleLibraryFlag`.
   */
  predicate Inv(s: State) {
    (s.loggedIn <==> s.cookie.Some?) &&
    (s.enteredLibrary ==> s.loggedIn) &&
    (s.jwt.Some? ==> s.enteredLibrary)
  }

  lemma StepKeepsInv(s: State, c: Command, response: string)
    requires Inv(s)
    ensures Inv(Step(s, c, response).next)
  {
  }

  lemma {:induction false} ReplayKeepsInv(s: State, commands: seq<Command>, responses: seq<string>)
    requires Inv(s) && |responses| == |commands|
    ensures Inv(Replay(s, commands, responses).last)
    decreases |commands|
  {
    if commands != [] {
      StepKeepsInv(s, commands[0], responses[0]);
      if !commands[0].Exit? {
        ReplayKeepsInv(Step(s, commands[0], responses[0]).next, commands[1..], responses[1..]);
      }
    }
  }

  /** The session begins in a state that satisfies the invariant, so every reachable one does. */
  lemma ReachableKeepsInv(commands: seq<Command>, responses: seq<string>)
    requires |responses| == |commands|
    ensures Inv(Replay(Initial, commands, responses).last)
  {
    ReplayKeepsInv(Initial, commands, responses);
  }

  /** Only login, enter_library and logout change main's state. */
  lemma OnlySessionCommandsChangeState(s: State, c: Command, response: string)
    requires Step(s, c, response).next != s
    ensures c.Login? || c.EnterLibrary? || c.Logout?
  {
  }

  /** login is refused, and nothing sent, while logged in. */
  lemma LoginRefusedWhenLoggedIn(s: State, username: string, password: string, payload: string, response: string)
    requires s.loggedIn
    ensures Step(s, Login(username, password, payload), response) == Transition(s, None, AlreadyLoggedIn)
  {
  }

  /** After a login attempt, logged_in is set exactly when login returned a cookie. */
  lemma LoggedInIffCookie(s: State, username: string, password: string, payload: string, response: string)
    requires Inv(s) && !s.loggedIn
    ensures var t := Step(s, Login(username, password, payload), response);
      (t.next.loggedIn <==> t.next.cookie.Some?) &&
      (t.next.loggedIn <==>
        CheckCredentials(username, password) == CredentialsOk &&
        !IsError(response) && ExtractCookie(response).Some?) &&
      (t.next.loggedIn ==> t.next.cookie == ExtractCookie(response))
  {
  }

  /** enter_library needs a login; otherwise nothing is sent and nothing changes. */
  lemma EnterNeedsLogin(s: State, response: string)
    requires !s.loggedIn
    ensures Step(s, EnterLibrary, response) == Transition(s, None, LoginRequired)
  {
  }

  /** The four book commands need the library to have been entered. */
  lemma BookCommandsNeedLibrary(s: State, c: Command, response: string)
    requires c.GetBooks? || c.AddBook? || c.GetBook? || c.DeleteBook?
    requires !s.enteredLibrary
    ensures Step(s, c, response) == Transition(s, None, LibraryRequired)
  {
  }

  /** logout needs a login, and afterwards both flags are down and both slots empty. */
  lemma LogoutResets(s: State, response: string)
    ensures var t := Step(s, Logout, response);
      if s.loggedIn then t.next == Initial && !t.next.loggedIn && !t.next.enteredLibrary &&
        t.next.cookie.None? && t.next.jwt.None?
      else t == Transition(s, None, NotLoggedIn)
  {
  }

  /** An unknown command shows an error and changes nothing. */
  lemma UnknownChangesNothing(s: State, name: string, response: string)
    ensures Step(s, Unknown(name), response) == Transition(s, None, InvalidCommand)
  {
  }

  /** Every request a step sends carries at most one credential. */
  lemma StepOneCredential(s: State, c: Command, response: string)
    requires Inv(s)
    ensures var t := Step(s, c, response);
      t.request.Some? ==> OneCredential(t.request.value)
  {
  }

  /** Every request a run sends carries at most one credential. */
  lemma {:induction false} ReplayOneCredential(s: State, commands: seq<Command>, responses: seq<string>)
    requires Inv(s) && |responses| == |commands|
    ensures forall q :: q in Replay(s, commands, responses).requests ==> OneCredential(q)
    decreases |commands|
  {
    if commands != [] {
      var t := Step(s, commands[0], responses[0]);
      StepOneCredential(s, commands[0], responses[0]);
      if !commands[0].Exit? {
        StepKeepsInv(s, commands[0], responses[0]);
        var rest := Replay(t.next, commands[1..], responses[1..]);
        ReplayOneCredential(t.next, commands[1..], responses[1..]);
        assert Replay(s, commands, responses).requests == Sent(t) + rest.requests;
      }
    }
  }

  /** Invalid input is rejected before any request is built. */
  lemma ValidationBeforeRequest(s: State, c: Command, response: string)
    requires
      ((c.Register? || c.Login?) && CheckCredentials(c.username, c.password) != CredentialsOk) ||
      (c.AddBook? && (HasEmptyField(c.book) || !AllDigits(c.book.pageCount))) ||
      ((c.GetBook? || c.DeleteBook?) && !AllDigits(c.id))
    ensures Step(s, c, response).request.None?
  {
  }

  /** A reply containing `error` is never sliced: no listing and no book is shown. */
  lemma NoSliceOnError(s: State, c: Command, response: string)
    requires IsError(response)
    ensures !Step(s, c, response).report.BooksListed?
    ensures !Step(s, c, response).report.BookShown?
  {
  }

  /**
   * A reply containing `error` to a request that was sent is reported as
   * that command's failure and leaves the state as it was.
   */
  lemma ErrorReplyReported(s: State, c: Command, response: string)
    requires Inv(s) && IsError(response) && !c.EnterLibrary? && !c.Logout?
    ensures var t := Step(s, c, response);
      t.request.Some? ==>
        t.next == s &&
        t.report == match c
          case Register(_, _, _) => UsernameTaken
          case Login(_, _, _) => LoginReport(InspectLogin(response))
          case GetBooks => BooksFailed
          case AddBook(_, _) => AddFailed
          case _ => InvalidId
  {
  }

  /** A listing or a book shown is the reply from its first `[` or `{`. */
  lemma ShownIsSlice(s: State, c: Command, response: string)
    ensures var r := Step(s, c, response).report;
      (r.BooksListed? ==> c.GetBooks? && r.listing == SliceFrom(response, '[')) &&
      (r.BookShown? ==> c.GetBook? && r.book == SliceFrom(response, '{'))
  {
  }

  /**
   * A failed enter_library after a successful one drops the jwt but keeps
   * the library flag, so get_books then goes out with no credential at all.
   */
  lemma StaleLibraryFlag(s: State, response: string)
    requires Inv(s) && s.enteredLibrary && ExtractToken(response).None?
    ensures var t := Step(s, EnterLibrary, response);
      t.next.enteredLibrary && t.next.jwt.None? && t.report == EnterFailed &&
      Step(t.next, GetBooks, response).request == Some(Get(BOOKS_ACCESS, None, None))
  {
  }

  /**
   * A reply with neither `error` nor `Set-Cookie: ` is reported as a
   * successful login, yet no session is opened.
   */
  lemma LoginWithoutCookie(s: State, username: string, password: string, payload: string, response: string)
    requires !s.loggedIn && CheckCredentials(username, password) == CredentialsOk
    requires !IsError(response) && forall i :: !OccursAt(response, "Set-Cookie: ", i)
    ensures var t := Step(s, Login(username, password, payload), response);
      t.report == LoggedIn && !t.next.loggedIn && t.next.cookie.None?
  {
  }

  /** The value of Outcome `o` with `requests` and `reports` put in front. */
  function Prepend(requests: seq<Request>, reports: seq<Report>, o: Outcome): Outcome {
    Outcome(o.last, requests + o.requests, reports + o.reports)
  }

  /**
   * One turn of main's loop, in terms of the replay: what was sent and
   * shown so far, then command i, then the replay of the rest.
   */
  lemma ReplayAt(s0: State, s: State, commands: seq<Command>, responses: seq<string>, i: nat,
                 requests: seq<Request>, reports: seq<Report>, t: Transition)
    requires |responses| == |commands| && i < |commands|
    requires Replay(s0, commands, responses) == Prepend(requests, reports, Replay(s, commands[i..], responses[i..]))
    requires t == Step(s, commands[i], responses[i])
    ensures commands[i].Exit? ==>
      Replay(s0, commands, responses) == Outcome(t.next, requests + Sent(t), reports + [t.report])
    ensures !commands[i].Exit? ==>
      Replay(s0, commands, responses) ==
        Prepend(requests + Sent(t), reports + [t.report], Replay(t.next, commands[i + 1..], responses[i + 1..]))
  {
    assert commands[i..][1..] == commands[i + 1..] && responses[i..][1..] == responses[i + 1..];
  }

  /** The variables of main; each method is one branch of its loop. */
  class Client {
    var loggedIn: bool
    var enteredLibrary: bool
    var cookie: Option<string>
    var jwt: Option<string>

    function Current(): State
      reads this
    {
      State(loggedIn, enteredLibrary, cookie, jwt)
    }

    constructor ()
      ensures Current() == Initial
    {
      loggedIn, enteredLibrary, cookie, jwt := false, false, None, None;
    }

    /** registration: touches none of main's variables. */
    method HandleRegister(username: string, password: string, payload: string, response: string)
      returns (request: Option<Request>, report: Report)
      ensures Step(Current(), Register(username, password, payload), response) ==
        Transition(Current(), request, report)
    {
      var check := CheckCredentials(username, password);
      if check == UsernameHasSpace {
        return None, SpaceInUsername;
      }
      if check == PasswordHasSpace {
        return None, SpaceInPassword;
      }
      request := Some(Post(REGISTER_ACCESS, payload, None));
      report := if IsError(response) then UsernameTaken else Registered;
    }

    /** The login branch: `cookie = login(sockfd); if (cookie) logged_in = true;`. */
    method HandleLogin(username: string, password: string, payload: string, response: string)
      returns (request: Option<Request>, report: Report)
      modifies this
      ensures Step(old(Current()), Login(username, password, payload), response) ==
        Transition(Current(), request, report)
    {
      if loggedIn {
        return None, AlreadyLoggedIn;
      }
      var check := CheckCredentials(username, password);
      if check != CredentialsOk {
        cookie := None;
        return None, CredentialsReport(check);
      }
      request := Some(Post(LOGIN_ACCESS, payload, None));
      var reply := InspectLogin(response);
      report := LoginReport(reply);
      cookie := LoginCookie(reply);
      if cookie.Some? {
        loggedIn := true;
      }
    }

    /** The enter_library branch: `jwt = enter_library(...); if (jwt) entered_library = true;`. */
    method HandleEnterLibrary(response: string) returns (request: Option<Request>, report: Report)
      modifies this
      ensures Step(old(Current()), EnterLibrary, response) == Transition(Current(), request, report)
    {
      if !loggedIn {
        return None, LoginRequired;
      }
      request := Some(Get(LIBRARY_ACCESS, cookie, None));
      jwt := ExtractToken(response);
      if jwt.Some? {
        enteredLibrary := true;
        report := EnteredLibrary;
      } else {
        report := EnterFailed;
      }
    }

    method HandleGetBooks(response: string) returns (request: Option<Request>, report: Report)
      ensures Step(Current(), GetBooks, response) == Transition(Current(), request, report)
    {
      if !enteredLibrary {
        return None, LibraryRequired;
      }
      request := Some(Get(BOOKS_ACCESS, None, jwt));
      if IsError(response) {
        report := BooksFailed;
      } else {
        report := BooksListed(SliceFrom(response, '['));
      }
    }

    method HandleAddBook(book: Book, payload: string, response: string)
      returns (request: Option<Request>, report: Report)
      ensures Step(Current(), AddBook(book, payload), response) == Transition(Current(), request, report)
    {
      if !enteredLibrary {
        return None, LibraryRequired;
      }
      if HasEmptyField(book) {
        return None, EmptyField;
      }
      var numeric := CheckDigits(book.pageCount);
      if !numeric {
        return None, PageCountNotNumber;
      }
      request := Some(Post(BOOKS_ACCESS, payload, jwt));
      report := if IsError(response) then AddFailed else BookAdded;
    }

    method HandleGetBook(id: string, response: string) returns (request: Option<Request>, report: Report)
      ensures Step(Current(), GetBook(id), response) == Transition(Current(), request, report)
    {
      if !enteredLibrary {
        return None, LibraryRequired;
      }
      var numeric := CheckDigits(id);
      if !numeric {
        return None, IdNotNumber;
      }
      request := Some(Get(BookPath(id), None, jwt));
      if IsError(response) {
        report := InvalidId;
      } else {
        report := BookShown(SliceFrom(response, '{'));
      }
    }

    method HandleDeleteBook(id: string, response: string) returns (request: Option<Request>, report: Report)
      ensures Step(Current(), DeleteBook(id), response) == Transition(Current(), request, report)
    {
      if !enteredLibrary {
        return None, LibraryRequired;
      }
      var numeric := CheckDigits(id);
      if !numeric {
        return None, IdNotNumber;
      }
      request := Some(Delete(BookPath(id), None, jwt));
      report := if IsError(response) then InvalidId else BookDeleted;
    }

    /** The logout branch: logout(sockfd, cookie), then both flags and both slots reset. */
    method HandleLogout(response: string) returns (request: Option<Request>, report: Report)
      modifies this
      ensures Step(old(Current()), Logout, response) == Transition(Current(), request, report)
    {
      if !loggedIn {
        return None, NotLoggedIn;
      }
      if cookie.None? {
        request, report := None, NoSession;
      } else {
        request := Some(Get(LOGOUT_ACCESS, cookie, None));
        report := if IsError(response) then LogoutFailed else LoggedOut;
      }
      loggedIn := false;
      enteredLibrary := false;
      cookie := None;
      jwt := None;
    }

    /** One pass of the loop: dispatch on the command. */
    method Execute(c: Command, response: string) returns (request: Option<Request>, report: Report)
      modifies this
      ensures Step(old(Current()), c, response) == Transition(Current(), request, report)
    {
      match c
      case Register(username, password, payload) =>
        request, report := HandleRegister(username, password, payload, response);
      case Login(username, password, payload) =>
        request, report := HandleLogin(username, password, payload, response);
      case EnterLibrary =>
        request, report := HandleEnterLibrary(response);
      case GetBooks =>
        request, report := HandleGetBooks(response);
      case AddBook(book, payload) =>
        request, report := HandleAddBook(book, payload, response);
      case GetBook(id) =>
        request, report := HandleGetBook(id, response);
      case DeleteBook(id) =>
        request, report := HandleDeleteBook(id, response);
      case Logout =>
        request, report := HandleLogout(response);
      case Exit =>
        request, report := None, Exited;
      case Unknown(_) =>
        request, report := None, InvalidCommand;
    }

    /** main's `while (true)` loop over the commands typed, leaving at `exit`. */
    method Run(commands: seq<Command>, responses: seq<string>)
      returns (requests: seq<Request>, reports: seq<Report>)
      requires |responses| == |commands|
      modifies this
      ensures Replay(old(Current()), commands, responses) == Outcome(Current(), requests, reports)
    {
      requests, reports := [], [];
      var i := 0;
      while i < |commands|
        invariant 0 <= i <= |commands|
        invariant Replay(old(Current()), commands, responses) ==
          Prepend(requests, reports, Replay(Current(), commands[i..], responses[i..]))
        decreases |commands| - i
      {
        ghost var before := Current();
        var request, report := Execute(commands[i], responses[i]);
        var t := Transition(Current(), request, report);
        ReplayAt(old(Current()), before, commands, responses, i, requests, reports, t);
        requests := requests + Sent(t);
        reports := reports + [report];
        if commands[i].Exit? {
          return;
        }
        i := i + 1;
      }
    }
  }
}
