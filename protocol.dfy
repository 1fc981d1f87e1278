/**
 * The firmware as a state machine over snapshots of its state (main.py:39-348):
 * what boot does, what one iteration of the main loop does, and what each
 * command handler does to the state and answers. The radio, the HTTP library,
 * the UDP socket and the directory and dictionary iteration orders are inputs
 * gathered in an `Env`.
 */
module Protocol {
  import opened Options
  import opened Text
  import opened Framing
  import opened Commands
  import opened Http
  import Bookmarks
  import Mac
  import Programs

  const FirmwareVersion := "0.0.2"
  const DefaultContentType := "application/x-www-form-urlencoded"

  /** The banner sent once the handshake completes. */
  const Banner := "\n'PICOJUICE " + FirmwareVersion
  const VersionReply := "'PICOJUICE Version " + FirmwareVersion
  const ReadyForPost := "'Ready for POST data"
  const NoPostInProgress := "'No POST in progress"
  const ContentTypeSet := "'Content-Type set"

  /** The POST session, the `state` dictionary of the firmware. */
  datatype Session = Session(
    postData: string,
    isPosting: bool,
    isSecurePost: bool,
    postUrl: string,
    contentType: string)

  const InitialSession := Session("", false, false, "", DefaultContentType)

  /** Running, waiting forever for a line that never completes, or stopped by an uncaught exception. */
  datatype Status = Running | Blocked | Crashed

  /**
   * A snapshot of the firmware: the serial input not yet read, every text
   * passed to send_response so far, every HTTP request issued, the POST
   * session, the bookmarks in memory and in bookmarks.json, and the other
   * files of the file system by name.
   */
  datatype Device = Device(
    input: seq<char>,
    sent: seq<string>,
    requests: seq<Request>,
    session: Session,
    bookmarks: map<string, string>,
    bookmarkFile: Option<map<string, string>>,
    files: map<string, string>,
    status: Status)

  /**
   * What the firmware consults but does not own: whether the radio is
   * connected, its MAC address, the help text, the replies of the radio
   * handlers, of the HTTP library (a response text or an error text) and of
   * the UDP socket, and the order in which os.listdir and a dictionary
   * enumerate their names.
   */
  datatype Env = Env(
    connected: bool,
    mac: seq<Mac.Byte>,
    help: string,
    radio: (Verb, seq<string>) -> string,
    http: Request -> string,
    udp: (string, string, string) -> string,
    dirOrder: set<string> -> seq<string>,
    bookmarkOrder: map<string, string> -> seq<string>)

  /**
   * The iteration orders the environment gives are true enumerations: the
   * directory order lists every file once, the bookmark order every key once.
   */
  ghost predicate OrdersEnumerate(d: Device, env: Env) {
    && Enumerates(env.dirOrder(d.files.Keys), d.files.Keys)
    && Enumerates(env.bookmarkOrder(d.bookmarks), d.bookmarks.Keys)
  }

  /**
   * PicoJuice.__init__ on the whole serial input: the handshake waits for an
   * `OK` line; once it has come, the banner goes out, the session starts
   * afresh, the bookmarks are loaded and the stored Wi-Fi credentials are
   * tried (autoConnect is the text that attempt sends, if any).
   */
  function Boot(input: seq<char>, bookmarkFile: Option<map<string, string>>, files: map<string, string>,
                autoConnect: Option<string>): Device
  {
    match Occurrence(Lines(input), Ack, 0)
    case None =>
      Device(Residue(input), [], [], InitialSession, map[], bookmarkFile, files, Blocked)
    case Some(k) =>
      var greeting := if autoConnect.Some? then [Banner, autoConnect.value] else [Banner];
      Device(DropLines(input, k + 1), greeting, [], InitialSession, Bookmarks.Load(bookmarkFile), bookmarkFile, files, Running)
  }

  /**
   * handle_http: nothing is issued while disconnected; otherwise a bookmark
   * key is resolved, the scheme added, and a GET without a body or a POST
   * with the data and the session's Content-Type goes out. The reply is the
   * response text, or the error text the library's exception gives.
   */
  function HandleHttp(d: Device, url: string, secure: bool, kind: Method, data: Option<string>, env: Env): (Device, string) {
    if !env.connected then (d, NotConnected)
    else
      var target := RequestUrl(d.bookmarks, url, secure);
      var req := if kind == HttpGet then Request(HttpGet, target, None, None)
                 else Request(HttpPost, target, data, Some(d.session.contentType));
      (d.(requests := d.requests + [req]), env.http(req))
  }

  function HandlePostStart(d: Device, url: string, secure: bool): (Device, string) {
    (d.(session := d.session.(isPosting := true, isSecurePost := secure, postUrl := url, postData := "")), ReadyForPost)
  }

  /** handle_post_end: the POST goes out with the session's data, then the session closes. */
  function HandlePostEnd(d: Device, env: Env): (Device, string) {
    var s := d.session;
    if !s.isPosting then (d, NoPostInProgress)
    else
      var (d', text) := HandleHttp(d, s.postUrl, s.isSecurePost, HttpPost, Some(s.postData), env);
      (d'.(session := d'.session.(isPosting := false, postData := "")), text)
  }

  function HandlePct(d: Device, contentType: string): (Device, string) {
    (d.(session := d.session.(contentType := contentType)), ContentTypeSet)
  }

  /**
   * handle_save: `LIST` goes out, then lines are read up to the second `OK`
   * and the collected ones are written to the program file. When that `OK`
   * never comes the firmware blocks, having read every complete line.
   */
  function HandleSave(d: Device, name: string): (Device, Option<string>) {
    var d' := d.(sent := d.sent + [Programs.ListPrompt]);
    match Programs.SaveTransfer(Lines(d.input))
    case None => (d'.(input := Residue(d.input), status := Blocked), None)
    case Some((content, k)) =>
      (d'.(input := DropLines(d.input, k), files := d.files[Programs.ProgramFile(name) := content]), Some(Programs.FileSaved))
  }

  /** handle_load: each line of the file is sent, stripped, before the reply. */
  function HandleLoad(d: Device, name: string): (Device, string) {
    var f := Programs.ProgramFile(name);
    if f in d.files then (d.(sent := d.sent + Programs.Replay(d.files[f])), Programs.FileLoaded)
    else (d, Programs.LoadFailed)
  }

  /** handle_del: the program file is removed when it exists. */
  function HandleDel(d: Device, name: string): (Device, string) {
    var (files, text) := Programs.Delete(d.files, name);
    (d.(files := files), text)
  }

  /** handle_bookmark: the map is updated, written to bookmarks.json and read back. */
  function HandleBookmark(d: Device, key: string, url: string): (Device, string) {
    if !StartsWith(key, Bookmarks.KeyPrefix) then (d, Bookmarks.BadKey)
    else
      var file := Some(Bookmarks.Store(d.bookmarks, key, url));
      (d.(bookmarkFile := file, bookmarks := Bookmarks.Load(file)), Bookmarks.Saved)
  }

  /** The effect and the return value of one handle_command call. */
  function Exec(d: Device, a: Action, env: Env): (Device, Option<string>) {
    match a
    case Version => (d, Some(VersionReply))
    case ShowMac => (d, Some(Mac.RenderMac(env.mac)))
    case ShowHelp => (d, Some(env.help))
    case Radio(v, args) => (d, Some(env.radio(v, args)))
    case Http(url, secure) => var (d', t) := HandleHttp(d, url, secure, HttpGet, None, env); (d', Some(t))
    case PostStart(url, secure) => var (d', t) := HandlePostStart(d, url, secure); (d', Some(t))
    case PostEnd => var (d', t) := HandlePostEnd(d, env); (d', Some(t))
    case SetContentType(t) => var (d', r) := HandlePct(d, t); (d', Some(r))
    case SendUdp(ip, port, message) => (d, Some(env.udp(ip, port, message)))
    case SaveProgram(name) => HandleSave(d, name)
    case ListPrograms => (d, Some(Programs.DirListing(d.files, env.dirOrder(d.files.Keys))))
    case DeleteProgram(name) => var (d', t) := HandleDel(d, name); (d', Some(t))
    case LoadProgram(name) => var (d', t) := HandleLoad(d, name); (d', Some(t))
    case StoreBookmark(key, url) => var (d', t) := HandleBookmark(d, key, url); (d', Some(t))
    case ListBookmarks => (d, Some(Bookmarks.Listing(d.bookmarks, env.bookmarkOrder(d.bookmarks))))
    case Fixed(t) => (d, Some(t))
    case NoResponse => (d, None)
    case Crash => (d.(status := Crashed), None)
  }

  /** `if response: send_response(response)`: only a non-empty text is sent. */
  function Respond(d: Device, response: Option<string>): Device {
    if response.Some? && response.value != "" then d.(sent := d.sent + [response.value]) else d
  }

  /**
   * One iteration of the main loop: read a line; when it carries the `MJ`
   * marker, run the command after it and send its response.
   */
  function RunStep(d: Device, env: Env): Device {
    if d.status != Running then d
    else match NextLine(d.input)
      case None => d.(status := Blocked)
      case Some((line, rest)) =>
        var d' := d.(input := rest);
        match CommandBody(line)
        case None => d'
        case Some(cmd) =>
          var (d'', response) := Exec(d', Classify(cmd), env);
          Respond(d'', response)
  }

  /** The main loop over a sequence of environments, one per iteration. */
  function Run(d: Device, envs: seq<Env>): Device
    decreases |envs|
  {
    if envs == [] then d else Run(RunStep(d, envs[0]), envs[1..])
  }
}
