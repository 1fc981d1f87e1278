/**
 * The PicoJuice object (main.py:39-348) as a class whose fields are the
 * firmware's state: the serial input still to be read, what has been sent,
 * the HTTP requests issued, the `state` dictionary, the bookmarks in memory
 * and on flash, the program files, and whether the firmware still runs.
 * Every method is proved to do what the corresponding function of Protocol
 * says, so the lemmas of Behaviour hold of the methods too.
 */
module Engine {
  import opened Options
  import opened Text
  import opened Framing
  import opened Commands
  import opened Http
  import opened Protocol
  import Bookmarks
  import Programs
  import Mac

  class PicoJuice {
    var input: seq<char>
    var sent: seq<string>
    var requests: seq<Request>
    var session: Session
    var bookmarks: map<string, string>
    var bookmarkFile: Option<map<string, string>>
    var files: map<string, string>
    var status: Status

    /** The snapshot Protocol reasons about. */
    function State(): Device
      reads this
    {
      Device(input, sent, requests, session, bookmarks, bookmarkFile, files, status)
    }

    /**
     * __init__: wait for the `OK` handshake, send the banner, start the
     * session, load the bookmarks and report the stored-credentials
     * connection, if it succeeded.
     */
    constructor (serial: seq<char>, storedBookmarks: Option<map<string, string>>, storedFiles: map<string, string>,
                 autoConnect: Option<string>)
      ensures State() == Boot(serial, storedBookmarks, storedFiles, autoConnect)
    {
      var acked, rest := AwaitAck(serial);
      input := rest;
      requests := [];
      session := InitialSession;
      bookmarkFile := storedBookmarks;
      files := storedFiles;
      if !acked {
        sent := [];
        bookmarks := map[];
        status := Blocked;
      } else {
        sent := if autoConnect.Some? then [Banner, autoConnect.value] else [Banner];
        bookmarks := Bookmarks.Load(storedBookmarks);
        status := Running;
      }
    }

    /** read_line: the next complete line, or None (with nothing read) when none has arrived. */
    method ReadLine() returns (line: Option<string>)
      modifies this
      ensures line.Some? ==> NextLine(old(input)) == Some((line.value, input))
      ensures line.None? ==> NextLine(old(input)).None? && input == old(input)
      ensures State() == old(State()).(input := input)
    {
      var rest;
      line, rest := Framing.ReadLine(input);
      input := rest;
    }

    /** send_response */
    method SendResponse(text: string)
      modifies this
      ensures State() == old(State()).(sent := old(sent) + [text])
    {
      sent := sent + [text];
    }

    method HandleHttp(url: string, secure: bool, kind: Method, data: Option<string>, env: Env) returns (text: string)
      modifies this
      ensures (State(), text) == Protocol.HandleHttp(old(State()), url, secure, kind, data, env)
    {
      if !env.connected {
        return NotConnected;
      }
      var target := RequestUrl(bookmarks, url, secure);
      var req := if kind == HttpGet then Request(HttpGet, target, None, None)
                 else Request(HttpPost, target, data, Some(session.contentType));
      requests := requests + [req];
      text := env.http(req);
    }

    method HandlePostStart(url: string, secure: bool) returns (text: string)
      modifies this
      ensures (State(), text) == Protocol.HandlePostStart(old(State()), url, secure)
    {
      session := session.(isPosting := true, isSecurePost := secure, postUrl := url, postData := "");
      text := ReadyForPost;
    }

    method HandlePostEnd(env: Env) returns (text: string)
      modifies this
      ensures (State(), text) == Protocol.HandlePostEnd(old(State()), env)
    {
      if !session.isPosting {
        return NoPostInProgress;
      }
      text := HandleHttp(session.postUrl, session.isSecurePost, HttpPost, Some(session.postData), env);
      session := session.(isPosting := false, postData := "");
    }

    method HandlePct(contentType: string) returns (text: string)
      modifies this
      ensures (State(), text) == Protocol.HandlePct(old(State()), contentType)
    {
      session := session.(contentType := contentType);
      text := ContentTypeSet;
    }

    /**
     * handle_save: send `LIST`, receive the program, and write it to its
     * file. Out of complete lines before the transfer ends, the firmware blocks.
     */
    method HandleSave(filename: string) returns (response: Option<string>)
      modifies this
      ensures (State(), response) == Protocol.HandleSave(old(State()), filename)
    {
      SendResponse(Programs.ListPrompt);
      var content := ReceiveProgram();
      if content.None? {
        return None;
      }
      files := files[Programs.ProgramFile(filename) := content.value];
      response := Some(Programs.FileSaved);
    }

    /**
     * The loop of handle_save: read lines until the second `OK`, collecting
     * the non-blank ones that are not `OK`; the content is those joined by
     * line feeds.
     */
    method ReceiveProgram() returns (content: Option<string>)
      modifies this
      ensures content.None? <==> Programs.SaveTransfer(Lines(old(input))).None?
      ensures content.None? ==> State() == old(State()).(input := Residue(old(input)), status := Blocked)
      ensures content.Some? ==>
        var (c, k) := Programs.SaveTransfer(Lines(old(input))).value;
        content.value == c && State() == old(State()).(input := DropLines(old(input), k))
    {
      ghost var start := input;
      ghost var seen: seq<string> := [];
      var collected: seq<string> := [];
      var firstOk := true;
      while true
        invariant Lines(start) == seen + Lines(input)
        invariant input == DropLines(start, |seen|)
        invariant Residue(input) == Residue(start)
        invariant collected == Programs.Payload(seen)
        invariant Count(seen, Ack) <= 1
        invariant firstOk <==> Count(seen, Ack) == 0
        invariant State() == old(State()).(input := input)
        decreases |input|
      {
        ghost var cur := input;
        var line := ReadLine();
        if line.None? {
          SaveBlocked(start, seen, cur);
          status := Blocked;
          return None;
        }
        if line.value == Ack && !firstOk {
          SaveFinished(start, seen, cur, input);
          return Some(Join(collected, '\n'));
        }
        SaveStep(start, seen, cur, line.value, input);
        if line.value == Ack {
          firstOk := false;
        } else if line.value != "" {
          collected := collected + [line.value];
        }
        seen := seen + [line.value];
      }
    }

    /** handle_load: send each line of the file, stripped, then the reply. */
    method HandleLoad(filename: string) returns (text: string)
      modifies this
      ensures (State(), text) == Protocol.HandleLoad(old(State()), filename)
    {
      var f := Programs.ProgramFile(filename);
      if f !in files {
        return Programs.LoadFailed;
      }
      SendStripped(Programs.FileLines(files[f]));
      text := Programs.FileLoaded;
    }

    /** The loop of handle_load: send_response(line.strip()) for each line in turn. */
    method SendStripped(lines: seq<string>)
      modifies this
      ensures State() == old(State()).(sent := old(sent) + Programs.StripAll(lines))
    {
      ghost var replay := Programs.StripAll(lines);
      var i := 0;
      while i < |lines|
        invariant 0 <= i <= |lines|
        invariant State() == old(State()).(sent := old(sent) + replay[..i])
      {
        var line := Strip(lines[i]);
        assert replay[i] == line;
        ExtendPrefix(old(sent), replay, i);
        sent := sent + [line];
        i := i + 1;
      }
      assert replay[..i] == replay;
    }

    method HandleDel(filename: string) returns (text: string)
      modifies this
      ensures (State(), text) == Protocol.HandleDel(old(State()), filename)
    {
      var f := Programs.ProgramFile(filename);
      if f in files {
        files := files - {f};
        text := Programs.FileDeleted;
      } else {
        text := Programs.DeleteFailed;
      }
    }

    /** handle_bookmark: store, write bookmarks.json, read it back. */
    method HandleBookmark(key: string, url: string) returns (text: string)
      modifies this
      ensures (State(), text) == Protocol.HandleBookmark(old(State()), key, url)
    {
      if !StartsWith(key, Bookmarks.KeyPrefix) {
        return Bookmarks.BadKey;
      }
      bookmarks := bookmarks[key := url];
      bookmarkFile := Some(bookmarks);
      bookmarks := Bookmarks.Load(bookmarkFile);
      text := Bookmarks.Saved;
    }

    /** The handler a command's table entry calls, with the value it returns. */
    method Execute(a: Action, env: Env) returns (response: Option<string>)
      modifies this
      ensures (State(), response) == Exec(old(State()), a, env)
    {
      if a.Http? || a.PostStart? || a.PostEnd? || a.SetContentType? || a.SaveProgram? || a.DeleteProgram?
         || a.LoadProgram? || a.StoreBookmark? || a.Crash? {
        response := Update(a, env);
      } else {
        response := Answer(a, env);
      }
    }

    /** The entries that only answer, leaving the state as it is. */
    method Answer(a: Action, env: Env) returns (response: Option<string>)
      requires !(a.Http? || a.PostStart? || a.PostEnd? || a.SetContentType? || a.SaveProgram? || a.DeleteProgram?
                 || a.LoadProgram? || a.StoreBookmark? || a.Crash?)
      ensures (State(), response) == Exec(State(), a, env)
    {
      match a
      case Version => response := Some(VersionReply);
      case ShowMac => response := Some(Mac.RenderMac(env.mac));
      case ShowHelp => response := Some(env.help);
      case Radio(v, args) => response := Some(env.radio(v, args));
      case SendUdp(ip, port, message) => response := Some(env.udp(ip, port, message));
      case ListPrograms => response := Some(Programs.DirListing(files, env.dirOrder(files.Keys)));
      case ListBookmarks => response := Some(Bookmarks.Listing(bookmarks, env.bookmarkOrder(bookmarks)));
      case Fixed(t) => response := Some(t);
      case NoResponse => response := None;
    }

    /** The entries whose handlers change the state. */
    method Update(a: Action, env: Env) returns (response: Option<string>)
      requires a.Http? || a.PostStart? || a.PostEnd? || a.SetContentType? || a.SaveProgram? || a.DeleteProgram?
               || a.LoadProgram? || a.StoreBookmark? || a.Crash?
      modifies this
      ensures (State(), response) == Exec(old(State()), a, env)
    {
      var text: string;
      match a
      case Http(url, secure) =>
        text := HandleHttp(url, secure, HttpGet, None, env);
        response := Some(text);
      case PostStart(url, secure) =>
        text := HandlePostStart(url, secure);
        response := Some(text);
      case PostEnd =>
        text := HandlePostEnd(env);
        response := Some(text);
      case SetContentType(t) =>
        text := HandlePct(t);
        response := Some(text);
      case SaveProgram(name) => response := HandleSave(name);
      case DeleteProgram(name) =>
        text := HandleDel(name);
        response := Some(text);
      case LoadProgram(name) =>
        text := HandleLoad(name);
        response := Some(text);
      case StoreBookmark(key, url) =>
        text := HandleBookmark(key, url);
        response := Some(text);
      case Crash =>
        status := Crashed;
        response := None;
    }

    /** handle_command: split the command, look its verb up, run the entry. */
    method HandleCommand(cmd: string, env: Env) returns (response: Option<string>)
      modifies this
      ensures (State(), response) == Exec(old(State()), Classify(cmd), env)
    {
      response := Execute(Classify(cmd), env);
    }

    /** One iteration of run's loop. */
    method RunOnce(env: Env)
      modifies this
      ensures State() == RunStep(old(State()), env)
    {
      if status != Running {
        return;
      }
      var line := ReadLine();
      if line.None? {
        status := Blocked;
        return;
      }
      var body := CommandBody(line.value);
      if body.Some? {
        var response := HandleCommand(body.value, env);
        if response.Some? && response.value != "" {
          SendResponse(response.value);
        }
      }
    }

    /** run, for as many iterations as there are environments. */
    method Run(envs: seq<Env>)
      modifies this
      ensures State() == Protocol.Run(old(State()), envs)
    {
      var i := 0;
      while i < |envs|
        invariant 0 <= i <= |envs|
        invariant Protocol.Run(State(), envs[i..]) == Protocol.Run(old(State()), envs)
      {
        assert envs[i..][1..] == envs[i + 1..];
        RunOnce(envs[i]);
        i := i + 1;
      }
    }
  }

  /** One more element of s, appended after a prefix of it. */
  lemma ExtendPrefix<T>(a: seq<T>, s: seq<T>, i: nat)
    requires i < |s|
    ensures (a + s[..i]) + [s[i]] == a + s[..i + 1]
  {
    assert s[..i + 1] == s[..i] + [s[i]];
  }

  /** Out of complete lines with the second `OK` missing: the transfer is still open. */
  lemma SaveBlocked(start: seq<char>, seen: seq<string>, cur: seq<char>)
    requires Lines(start) == seen + Lines(cur) && Count(seen, Ack) <= 1
    requires NextLine(cur).None?
    ensures Programs.SaveTransfer(Lines(start)).None?
  {
    assert Lines(cur) == [];
    assert Lines(start) == seen;
    OccurrenceAbsent(Lines(start), Ack, 1);
  }

  /** The next line is the second `OK`: the transfer ends there. */
  lemma SaveFinished(start: seq<char>, seen: seq<string>, cur: seq<char>, after: seq<char>)
    requires Lines(start) == seen + Lines(cur) && cur == DropLines(start, |seen|)
    requires Count(seen, Ack) == 1
    requires NextLine(cur) == Some((Ack, after))
    ensures Programs.SaveTransfer(Lines(start)) == Some((Join(Programs.Payload(seen), '\n'), |seen| + 1))
    ensures after == DropLines(start, |seen| + 1)
  {
    LinesStep(cur, Ack, after);
    AppendAssoc(seen, [Ack], Lines(after));
    DropLinesStep(start, |seen|, Ack, after);
    var ls := Lines(start);
    assert ls[..|seen|] == seen;
    OccurrenceAt(ls, Ack, 1, |seen|);
  }

  /** Any other line is read and, unless blank or `OK`, collected. */
  lemma SaveStep(start: seq<char>, seen: seq<string>, cur: seq<char>, line: string, after: seq<char>)
    requires Lines(start) == seen + Lines(cur) && cur == DropLines(start, |seen|)
    requires NextLine(cur) == Some((line, after))
    ensures Lines(start) == (seen + [line]) + Lines(after)
    ensures after == DropLines(start, |seen + [line]|)
    ensures Residue(after) == Residue(cur)
    ensures Count(seen + [line], Ack) == Count(seen, Ack) + (if line == Ack then 1 else 0)
    ensures Programs.Payload(seen + [line]) ==
      if Programs.Collected(line) then Programs.Payload(seen) + [line] else Programs.Payload(seen)
  {
    LinesStep(cur, line, after);
    AppendAssoc(seen, [line], Lines(after));
    DropLinesStep(start, |seen|, line, after);
    CountSnoc(seen, line, Ack);
    assert (seen + [line])[..|seen|] == seen;
  }
}
