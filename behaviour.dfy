/**
 * What the firmware guarantees across commands: the handshake, the states it
 * never leaves, the invariants every loop iteration keeps, and the round trips
 * between the command handlers.
 */
module Behaviour {
  import opened Options
  import opened Text
  import opened Framing
  import opened Commands
  import opened Http
  import opened Protocol
  import Bookmarks
  import Programs

  /**
   * Boot completes exactly when an `OK` line arrives. The banner is then the
   * first text sent, followed only by what the Wi-Fi auto-connect sends,
   * every earlier line has been thrown away, the bookmarks are those of the
   * file, and the main loop starts on the lines after the `OK`; otherwise
   * nothing is sent and every complete line has been read. Either way the
   * session starts afresh, no request has gone out and the files are as
   * found.
   */
  lemma BootHandshake(input: seq<char>, file: Option<map<string, string>>, files: map<string, string>,
                      autoConnect: Option<string>)
    ensures Boot(input, file, files, autoConnect).status != Crashed
    ensures Boot(input, file, files, autoConnect).status == Running <==> Occurrence(Lines(input), Ack, 0).Some?
    ensures Boot(input, file, files, autoConnect).status == Running ==>
      var k := Occurrence(Lines(input), Ack, 0).value;
      && Boot(input, file, files, autoConnect).sent[0] == Banner
      && Lines(Boot(input, file, files, autoConnect).input) == Lines(input)[k + 1..]
      && forall i :: 0 <= i < k ==> Lines(input)[i] != Ack
    ensures Boot(input, file, files, autoConnect).status == Running ==>
      && Boot(input, file, files, autoConnect).bookmarks == Bookmarks.Load(file)
      && Boot(input, file, files, autoConnect).sent[1..] == (if autoConnect.Some? then [autoConnect.value] else [])
    ensures Boot(input, file, files, autoConnect).status == Blocked ==>
      Boot(input, file, files, autoConnect).sent == [] && NextLine(Boot(input, file, files, autoConnect).input).None?
    ensures var d := Boot(input, file, files, autoConnect);
      && d.session == InitialSession && d.requests == []
      && d.bookmarkFile == file && d.files == files
  {
    var occ := Occurrence(Lines(input), Ack, 0);
    if occ.Some? {
      BootAcknowledged(input, file, files, autoConnect, occ.value);
    }
  }

  lemma BootAcknowledged(input: seq<char>, file: Option<map<string, string>>, files: map<string, string>,
                         autoConnect: Option<string>, k: nat)
    requires Occurrence(Lines(input), Ack, 0) == Some(k)
    ensures Boot(input, file, files, autoConnect).status == Running
    ensures Boot(input, file, files, autoConnect).sent[0] == Banner
    ensures Lines(Boot(input, file, files, autoConnect).input) == Lines(input)[k + 1..]
    ensures forall i :: 0 <= i < k ==> Lines(input)[i] != Ack
  {
    LinesAfterDrop(input, k + 1);
    AwaitAckSkipsOthers(Lines(input), k);
  }

  /** A blocked or crashed firmware stays as it is, however many iterations follow. */
  lemma {:induction false} HaltedStays(d: Device, envs: seq<Env>)
    requires d.status != Running
    ensures Run(d, envs) == d
    decreases |envs|
  {
    if envs != [] {
      HaltedStays(RunStep(d, envs[0]), envs[1..]);
    }
  }

  /** One iteration on a marked line is handle_command on the text after the marker. */
  lemma CommandStep(d: Device, env: Env, line: string, rest: seq<char>, cmd: string) returns (a: Action)
    requires d.status == Running && NextLine(d.input) == Some((line, rest)) && CommandBody(line) == Some(cmd)
    ensures a == Classify(cmd)
    ensures RunStep(d, env) == Respond(Exec(d.(input := rest), a, env).0, Exec(d.(input := rest), a, env).1)
  {
    a := Classify(cmd);
  }

  /**
   * The shape of one iteration: the device d0 that handle_command starts from
   * differs from d at most in the input and the status, and either that is
   * the whole step or handle_command runs some action on it.
   */
  lemma StepShape(d: Device, env: Env) returns (d0: Device, a: Option<Action>)
    ensures d0 == d.(input := d0.input, status := d0.status)
    ensures d0.status == Running ==> d.status == Running
    ensures a.None? ==> RunStep(d, env) == d0
    ensures a.Some? ==> d0.status == Running
    ensures a.Some? ==> RunStep(d, env) == Respond(Exec(d0, a.value, env).0, Exec(d0, a.value, env).1)
  {
    d0, a := d, None;
    if d.status == Running {
      match NextLine(d.input)
      case None =>
        d0 := d.(status := Blocked);
      case Some((line, rest)) =>
        d0 := d.(input := rest);
        var body := CommandBody(line);
        if body.Some? {
          a := Some(Classify(body.value));
        }
    }
  }

  /** A line without the marker is read and has no other effect. */
  lemma UnmarkedLineIgnored(d: Device, env: Env, line: string, rest: seq<char>)
    requires d.status == Running && NextLine(d.input) == Some((line, rest))
    requires !(|line| >= 2 && line[0] in "Mm" && line[1] in "Jj")
    ensures RunStep(d, env) == d.(input := rest)
  {
  }

  /** A command with an unknown verb is read and answered with nothing. */
  lemma UnknownVerbIgnored(d: Device, env: Env, line: string, rest: seq<char>, cmd: string)
    requires d.status == Running && NextLine(d.input) == Some((line, rest)) && CommandBody(line) == Some(cmd)
    requires Tokenise(cmd) != [] && ParseVerb(Tokenise(cmd)[0]).None?
    ensures RunStep(d, env) == d.(input := rest)
  {
    var a := CommandStep(d, env, line, rest, cmd);
    assert a == NoResponse;
    Unanswered(d.(input := rest), env);
  }

  lemma Unanswered(d: Device, env: Env)
    ensures Respond(Exec(d, NoResponse, env).0, Exec(d, NoResponse, env).1) == d
  {
  }

  lemma Crashes(d: Device, env: Env)
    ensures Respond(Exec(d, Crash, env).0, Exec(d, Crash, env).1) == d.(status := Crashed)
  {
  }

  /** A marker with nothing after it stops the firmware: parts[0] of an empty split. */
  lemma BlankCommandStops(d: Device, env: Env, line: string, rest: seq<char>, cmd: string)
    requires d.status == Running && NextLine(d.input) == Some((line, rest)) && CommandBody(line) == Some(cmd)
    requires forall i :: 0 <= i < |cmd| ==> IsSpace(cmd[i])
    ensures RunStep(d, env) == d.(input := rest, status := Crashed)
  {
    BlankCommandCrashes(cmd);
    var a := CommandStep(d, env, line, rest, cmd);
    Crashes(d.(input := rest), env);
  }

  /** The texts sent so far are never taken back. */
  lemma SentOnlyGrows(d: Device, env: Env)
    ensures d.sent <= RunStep(d, env).sent
  {
    var d0, a := StepShape(d, env);
    if a.Some? {
      ExecSentGrows(d0, a.value, env);
    }
  }

  lemma ExecSentGrows(d: Device, a: Action, env: Env)
    ensures d.sent <= Exec(d, a, env).0.sent
  {
  }

  /** While the radio is disconnected no HTTP request is issued. */
  lemma OfflineIssuesNothing(d: Device, env: Env)
    requires !env.connected
    ensures RunStep(d, env).requests == d.requests
  {
    var d0, a := StepShape(d, env);
    if a.Some? {
      ExecOffline(d0, a.value, env);
    }
  }

  lemma ExecOffline(d: Device, a: Action, env: Env)
    requires !env.connected
    ensures Exec(d, a, env).0.requests == d.requests
  {
  }

  /** GET and GETS while disconnected change nothing and answer the not-connected text. */
  lemma ExecHttpOffline(d: Device, url: string, secure: bool, env: Env)
    requires !env.connected
    ensures Exec(d, Http(url, secure), env) == (d, Some(NotConnected))
  {
    ExecGet(d, url, secure, env);
  }

  /**
   * No command appends to the POST data, so the session's data is always
   * empty and every POST the firmware issues carries an empty body.
   */
  predicate PostBodiesEmpty(d: Device) {
    && d.session.postData == ""
    && forall i :: 0 <= i < |d.requests| ==> d.requests[i].kind == HttpPost ==> d.requests[i].data == Some("")
  }

  lemma BootPostBodiesEmpty(input: seq<char>, file: Option<map<string, string>>, files: map<string, string>,
                            autoConnect: Option<string>)
    ensures PostBodiesEmpty(Boot(input, file, files, autoConnect))
  {
  }

  lemma HttpKeepsPostBodiesEmpty(d: Device, url: string, secure: bool, kind: Method, data: Option<string>, env: Env)
    requires PostBodiesEmpty(d)
    requires kind == HttpPost ==> data == Some("")
    ensures PostBodiesEmpty(HandleHttp(d, url, secure, kind, data, env).0)
  {
    if env.connected {
      var rs := HandleHttp(d, url, secure, kind, data, env).0.requests;
      assert forall i :: 0 <= i < |d.requests| ==> rs[i] == d.requests[i];
    }
  }

  lemma ExecKeepsPostBodiesEmpty(d: Device, a: Action, env: Env)
    requires PostBodiesEmpty(d)
    ensures PostBodiesEmpty(Exec(d, a, env).0)
  {
    match a
    case Http(url, secure) =>
      HttpKeepsPostBodiesEmpty(d, url, secure, HttpGet, None, env);
    case PostEnd =>
      PostEndKeepsPostBodiesEmpty(d, env);
    case _ =>
  }

  lemma PostEndKeepsPostBodiesEmpty(d: Device, env: Env)
    requires PostBodiesEmpty(d)
    ensures PostBodiesEmpty(HandlePostEnd(d, env).0)
  {
    var s := d.session;
    if s.isPosting {
      HttpKeepsPostBodiesEmpty(d, s.postUrl, s.isSecurePost, HttpPost, Some(s.postData), env);
    }
  }

  lemma StepKeepsPostBodiesEmpty(d: Device, env: Env)
    requires PostBodiesEmpty(d)
    ensures PostBodiesEmpty(RunStep(d, env))
  {
    var d0, a := StepShape(d, env);
    if a.Some? {
      ExecKeepsPostBodiesEmpty(d0, a.value, env);
    }
  }

  /** From boot on, whatever the serial input and the environment, every POST body is empty. */
  lemma {:induction false} RunPostBodiesEmpty(d: Device, envs: seq<Env>)
    requires PostBodiesEmpty(d)
    ensures PostBodiesEmpty(Run(d, envs))
    decreases |envs|
  {
    if envs != [] {
      StepKeepsPostBodiesEmpty(d, envs[0]);
      RunPostBodiesEmpty(RunStep(d, envs[0]), envs[1..]);
    }
  }

  /**
   * handle_bookmark writes bookmarks.json and reads it back, so while the
   * firmware runs its map is the one the file holds.
   */
  predicate BookmarksMirrorFile(d: Device) {
    d.status == Running ==> d.bookmarks == Bookmarks.Load(d.bookmarkFile)
  }

  lemma BootBookmarksMirrorFile(input: seq<char>, file: Option<map<string, string>>, files: map<string, string>,
                                autoConnect: Option<string>)
    ensures BookmarksMirrorFile(Boot(input, file, files, autoConnect))
  {
  }

  lemma StepKeepsBookmarksMirrorFile(d: Device, env: Env)
    requires BookmarksMirrorFile(d)
    ensures BookmarksMirrorFile(RunStep(d, env))
  {
    var d0, a := StepShape(d, env);
    if a.Some? {
      ExecKeepsBookmarksMirrorFile(d0, a.value, env);
    }
  }

  lemma ExecKeepsBookmarksMirrorFile(d: Device, a: Action, env: Env)
    requires d.bookmarks == Bookmarks.Load(d.bookmarkFile)
    ensures Exec(d, a, env).0.bookmarks == Bookmarks.Load(Exec(d, a, env).0.bookmarkFile)
  {
  }

  lemma {:induction false} RunBookmarksMirrorFile(d: Device, envs: seq<Env>)
    requires BookmarksMirrorFile(d)
    ensures BookmarksMirrorFile(Run(d, envs))
    decreases |envs|
  {
    if envs != [] {
      StepKeepsBookmarksMirrorFile(d, envs[0]);
      RunBookmarksMirrorFile(RunStep(d, envs[0]), envs[1..]);
    }
  }

  /** Every key that enters the bookmark map carries the `**` prefix. */
  lemma NewBookmarksPrefixed(d: Device, env: Env, k: string)
    requires k in RunStep(d, env).bookmarks && k !in d.bookmarks
    ensures StartsWith(k, Bookmarks.KeyPrefix)
  {
    var d0, a := StepShape(d, env);
    if a.Some? {
      ExecNewBookmarksPrefixed(d0, a.value, env, k);
    }
  }

  lemma ExecNewBookmarksPrefixed(d: Device, a: Action, env: Env, k: string)
    requires k in Exec(d, a, env).0.bookmarks && k !in d.bookmarks
    ensures StartsWith(k, Bookmarks.KeyPrefix)
  {
  }

  /** Files that are not `.IJB` programs are never created, changed or removed. */
  lemma OtherFilesUntouched(d: Device, env: Env, f: string)
    requires !EndsWith(f, Programs.Extension)
    ensures f in RunStep(d, env).files <==> f in d.files
    ensures f in d.files ==> RunStep(d, env).files[f] == d.files[f]
  {
    var d0, a := StepShape(d, env);
    if a.Some? {
      ExecOtherFilesUntouched(d0, a.value, env, f);
    }
  }

  lemma ExecOtherFilesUntouched(d: Device, a: Action, env: Env, f: string)
    requires !EndsWith(f, Programs.Extension)
    ensures f in Exec(d, a, env).0.files <==> f in d.files
    ensures f in d.files ==> Exec(d, a, env).0.files[f] == d.files[f]
  {
    ExecFiles(d, a, env);
    match a
    case SaveProgram(name) =>
      NotProgramFile(f, name);
    case DeleteProgram(name) =>
      NotProgramFile(f, name);
    case _ =>
  }

  /** Only SAVE and DEL touch the file system. */
  lemma ExecFiles(d: Device, a: Action, env: Env)
    ensures Exec(d, a, env).0.files ==
      match a
      case SaveProgram(name) => HandleSave(d, name).0.files
      case DeleteProgram(name) => HandleDel(d, name).0.files
      case _ => d.files
  {
  }

  lemma NotProgramFile(f: string, name: string)
    requires !EndsWith(f, Programs.Extension)
    ensures f != Programs.ProgramFile(name)
  {
  }

  /** Only PCT changes the Content-Type. */
  lemma ContentTypeOnlyByPct(d: Device, a: Action, env: Env)
    requires !a.SetContentType?
    ensures Exec(d, a, env).0.session.contentType == d.session.contentType
  {
  }

  /** POST END without a session answers so and changes nothing. */
  lemma EndPostIdle(d: Device, env: Env)
    requires !d.session.isPosting
    ensures Exec(d, PostEnd, env) == (d, Some(NoPostInProgress))
  {
  }

  /**
   * POST START opens a session on the URL as given, with the secure flag and
   * empty data; the Content-Type and everything outside the session stay.
   */
  lemma PostStartOpens(d: Device, url: string, secure: bool, env: Env)
    ensures
      var (d', r) := Exec(d, PostStart(url, secure), env);
      && r == Some(ReadyForPost)
      && d' == d.(session := d'.session)
      && d'.session.isPosting && d'.session.isSecurePost == secure
      && d'.session.postUrl == url && d'.session.postData == ""
      && d'.session.contentType == d.session.contentType
  {
    ExecPostStart(d, url, secure, env);
  }

  /**
   * POST END with a session open issues one POST of the session's data to
   * its URL, prefixed as the secure flag says (none while disconnected), and
   * closes the session with its data cleared; the reply is the library's.
   */
  lemma PostEndCloses(d: Device, env: Env)
    requires d.session.isPosting
    ensures
      var s := d.session;
      var req := Request(HttpPost, RequestUrl(d.bookmarks, s.postUrl, s.isSecurePost), Some(s.postData), Some(s.contentType));
      var (d', r) := Exec(d, PostEnd, env);
      && d' == d.(requests := d'.requests, session := d'.session)
      && d'.requests == d.requests + (if env.connected then [req] else [])
      && r == Some(if env.connected then env.http(req) else NotConnected)
      && d'.session == s.(isPosting := false, postData := "")
  {
    ExecPostEnd(d, env);
  }

  /** An entry whose arity guard fails answers with its error text and nothing else happens. */
  lemma GuardAnswersOnly(d: Device, parts: seq<string>, env: Env)
    requires Dispatch(parts).Fixed?
    ensures Exec(d, Dispatch(parts), env) == (d, Some(Dispatch(parts).text))
  {
  }

  /**
   * PCT, then POST START, then POST END, while connected: exactly one POST
   * goes out, to the prefixed URL, with the Content-Type set and an empty
   * body; its text is the reply, and the session is closed.
   */
  lemma PostUsesContentType(d: Device, contentType: string, url: string, secure: bool, env: Env)
    requires env.connected
    ensures
      var d1 := Exec(d, SetContentType(contentType), env).0;
      var d2 := Exec(d1, PostStart(url, secure), env).0;
      var req := Request(HttpPost, RequestUrl(d.bookmarks, url, secure), Some(""), Some(contentType));
      && Exec(d2, PostEnd, env).0.requests == d.requests + [req]
      && Exec(d2, PostEnd, env).1 == Some(env.http(req))
      && !Exec(d2, PostEnd, env).0.session.isPosting
      && Exec(d2, PostEnd, env).0.session.contentType == contentType
  {
    ExecPct(d, contentType, env);
    var d1 := HandlePct(d, contentType).0;
    ExecPostStart(d1, url, secure, env);
    var d2 := HandlePostStart(d1, url, secure).0;
    ExecPostEnd(d2, env);
  }

  /**
   * Once a bookmark is stored, a GET of its key fetches its URL, with the
   * scheme the verb selects added when the URL has none.
   */
  lemma BookmarkThenGet(d: Device, key: string, url: string, secure: bool, env: Env)
    requires StartsWith(key, Bookmarks.KeyPrefix) && env.connected
    ensures
      var d1 := Exec(d, StoreBookmark(key, url), env).0;
      Exec(d1, Http(key, secure), env).0.requests == d.requests + [Request(HttpGet, Target(url, secure), None, None)]
  {
    ExecBookmark(d, key, url, env);
    var d1 := HandleBookmark(d, key, url).0;
    ExecGet(d1, key, secure, env);
    RequestUrlOfBookmark(d.bookmarks, key, url, secure);
  }

  lemma ExecBookmark(d: Device, key: string, url: string, env: Env)
    ensures Exec(d, StoreBookmark(key, url), env) == (HandleBookmark(d, key, url).0, Some(HandleBookmark(d, key, url).1))
  {
  }

  lemma ExecGet(d: Device, url: string, secure: bool, env: Env)
    ensures Exec(d, Http(url, secure), env) ==
      (HandleHttp(d, url, secure, HttpGet, None, env).0, Some(HandleHttp(d, url, secure, HttpGet, None, env).1))
  {
  }

  lemma ExecPct(d: Device, contentType: string, env: Env)
    ensures Exec(d, SetContentType(contentType), env) == (HandlePct(d, contentType).0, Some(HandlePct(d, contentType).1))
  {
  }

  lemma ExecPostStart(d: Device, url: string, secure: bool, env: Env)
    ensures Exec(d, PostStart(url, secure), env) ==
      (HandlePostStart(d, url, secure).0, Some(HandlePostStart(d, url, secure).1))
  {
  }

  lemma ExecPostEnd(d: Device, env: Env)
    ensures Exec(d, PostEnd, env) == (HandlePostEnd(d, env).0, Some(HandlePostEnd(d, env).1))
  {
  }

  /**
   * SAVE blocks until the second `OK`: without it the firmware has sent
   * `LIST`, read every complete line and written nothing.
   */
  lemma SaveWaitsForSecondOk(d: Device, name: string, env: Env)
    requires Count(Lines(d.input), Ack) <= 1
    ensures Exec(d, SaveProgram(name), env).0 ==
      d.(sent := d.sent + [Programs.ListPrompt], input := Residue(d.input), status := Blocked)
  {
    OccurrenceAbsent(Lines(d.input), Ack, 1);
  }

  /**
   * SAVE then LOAD: the collected lines come back, one send each, in the
   * order they arrived, followed by the LOAD reply.
   */
  lemma SaveThenLoad(d: Device, name: string)
    requires Programs.SaveTransfer(Lines(d.input)).Some?
    ensures
      var k := Programs.SaveTransfer(Lines(d.input)).value.1;
      var (d1, r1) := HandleSave(d, name);
      var (d2, r2) := HandleLoad(d1, name);
      && r1 == Some(Programs.FileSaved)
      && r2 == Programs.FileLoaded
      && d2.sent == d.sent + [Programs.ListPrompt] + Programs.Payload(Lines(d.input)[..k - 1])
  {
    var ls := Lines(d.input);
    var k := Programs.SaveTransfer(ls).value.1;
    var got := ls[..k - 1];
    ReceivedLinesClean(d.input, k - 1);
    Programs.ReplaySaved(got);
    SaveWrites(d, name, Join(Programs.Payload(got), '\n'), k);
  }

  /** The lines before the n-th are stripped and free of line feeds. */
  lemma ReceivedLinesClean(s: seq<char>, n: nat)
    requires n <= |Lines(s)|
    ensures forall i :: 0 <= i < n ==> IsStripped(Lines(s)[..n][i]) && '\n' !in Lines(s)[..n][i]
  {
    LinesWellFormed(s);
    var ls := Lines(s);
    assert forall i :: 0 <= i < n ==> ls[..n][i] == ls[i];
  }

  /** A completed SAVE sends `LIST`, writes the content to the program file and replies. */
  lemma SaveWrites(d: Device, name: string, content: string, k: nat)
    requires Programs.SaveTransfer(Lines(d.input)) == Some((content, k))
    ensures HandleSave(d, name).1 == Some(Programs.FileSaved)
    ensures HandleSave(d, name).0.sent == d.sent + [Programs.ListPrompt]
    ensures Programs.ProgramFile(name) in HandleSave(d, name).0.files
    ensures HandleSave(d, name).0.files[Programs.ProgramFile(name)] == content
  {
  }

  /** After DEL, LOAD of the same name fails. */
  lemma DeleteThenLoad(d: Device, name: string, env: Env)
    ensures
      var d1 := Exec(d, DeleteProgram(name), env).0;
      Exec(d1, LoadProgram(name), env) == (d1, Some(Programs.LoadFailed))
  {
    ExecDel(d, name, env);
    var d1 := HandleDel(d, name).0;
    assert Programs.ProgramFile(name) !in d1.files;
    ExecLoad(d1, name, env);
  }

  lemma ExecDel(d: Device, name: string, env: Env)
    ensures Exec(d, DeleteProgram(name), env) == (HandleDel(d, name).0, Some(HandleDel(d, name).1))
  {
  }

  lemma ExecLoad(d: Device, name: string, env: Env)
    ensures Exec(d, LoadProgram(name), env) == (HandleLoad(d, name).0, Some(HandleLoad(d, name).1))
  {
  }

  /** A saved program is listed by DIR, when the directory order includes it. */
  lemma SavedThenListed(d: Device, name: string, order: seq<string>)
    requires Programs.SaveTransfer(Lines(d.input)).Some?
    requires Programs.ProgramFile(name) in order
    ensures Programs.ProgramFile(name) in Programs.ProgramNames(HandleSave(d, name).0.files, order)
  {
    var (content, k) := Programs.SaveTransfer(Lines(d.input)).value;
    SaveWrites(d, name, content, k);
    Programs.SavedProgramListed(HandleSave(d, name).0.files, order, name);
  }

  lemma ExecDir(d: Device, env: Env)
    ensures Exec(d, ListPrograms, env) == (d, Some(Programs.DirListing(d.files, env.dirOrder(d.files.Keys))))
  {
  }

  lemma ExecListBookmarks(d: Device, env: Env)
    ensures Exec(d, ListBookmarks, env) == (d, Some(Bookmarks.Listing(d.bookmarks, env.bookmarkOrder(d.bookmarks))))
  {
  }

  /**
   * DIR changes nothing and lists every `.IJB` file exactly once; with none
   * it answers the fixed text, and otherwise, when no file name holds a line
   * feed, its lines are one `'name size` entry per `.IJB` file.
   */
  lemma DirListsEachProgramOnce(d: Device, env: Env)
    requires OrdersEnumerate(d, env)
    ensures var names := Programs.ProgramNames(d.files, env.dirOrder(d.files.Keys));
      && Exec(d, ListPrograms, env) == (d, Some(Programs.DirListing(d.files, env.dirOrder(d.files.Keys))))
      && Enumerates(names, Programs.ProgramSet(d.files))
      && |names| == |Programs.ProgramSet(d.files)|
      && (Programs.ProgramSet(d.files) == {} ==> Exec(d, ListPrograms, env).1 == Some(Programs.NoPrograms))
      && (Programs.ProgramSet(d.files) != {} && (forall f :: f in d.files ==> '\n' !in f) ==>
            Split(Exec(d, ListPrograms, env).1.value, '\n') == Programs.DirEntries(d.files, names))
  {
    ExecDir(d, env);
    Programs.DirListingOfDirectory(d.files, env.dirOrder(d.files.Keys));
  }

  /**
   * BOOKMARKS changes nothing; for a non-empty map whose keys and URLs hold
   * no line feed, its lines are one `'key: url` entry per bookmark, each
   * bookmark's entry among them.
   */
  lemma BookmarksListsEachOnce(d: Device, env: Env)
    requires OrdersEnumerate(d, env) && d.bookmarks != map[]
    requires forall k :: k in d.bookmarks ==> '\n' !in k && '\n' !in d.bookmarks[k]
    ensures var order := env.bookmarkOrder(d.bookmarks);
      && Exec(d, ListBookmarks, env) == (d, Some(Bookmarks.Listing(d.bookmarks, order)))
      && Split(Exec(d, ListBookmarks, env).1.value, '\n') == Bookmarks.Entries(d.bookmarks, order)
      && |Split(Exec(d, ListBookmarks, env).1.value, '\n')| == |d.bookmarks|
      && forall k :: k in d.bookmarks ==>
           Bookmarks.Entry(k, d.bookmarks[k]) in Split(Exec(d, ListBookmarks, env).1.value, '\n')
  {
    ExecListBookmarks(d, env);
    Bookmarks.ListingLines(d.bookmarks, env.bookmarkOrder(d.bookmarks));
  }
}
