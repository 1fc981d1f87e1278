/**
 * The command grammar and the dispatch table of handle_command
 * (main.py:309-338): the body is split into at most three tokens, the verb
 * is upper-cased and looked up in a fixed table, each entry checks how many
 * tokens it got and either names a handler with its arguments or gives a
 * fixed error text, and an unknown verb gives no response at all.
 */
module Commands {
  import opened Options
  import opened Text

  /** The first whitespace-free word at the front of s, as a length. */
  function WordLength(s: string): (k: nat)
    ensures k <= |s|
    ensures forall i :: 0 <= i < k ==> !IsSpace(s[i])
    ensures k < |s| ==> IsSpace(s[k])
  {
    if s == [] || IsSpace(s[0]) then 0 else 1 + WordLength(s[1..])
  }

  /** The first word of t and the text after it with its leading whitespace removed. */
  function SplitWord(t: string): (r: (string, string))
    requires t != [] && !IsSpace(t[0])
    ensures r.0 != [] && NoSpace(r.0) && IsStripped(r.0)
    ensures r.1 == [] || !IsSpace(r.1[0])
    ensures r.1 == [] || r.1[|r.1| - 1] == t[|t| - 1]
    ensures |r.1| < |t|
  {
    var k := WordLength(t);
    WordPrefix(t, k);
    (t[..k], TrimStart(t[k..]))
  }

  /** The word at the front of t: nonempty, free of whitespace, therefore stripped. */
  lemma WordPrefix(t: string, k: nat)
    requires t != [] && !IsSpace(t[0]) && k == WordLength(t)
    ensures 1 <= k <= |t|
    ensures NoSpace(t[..k]) && IsStripped(t[..k])
  {
    var word := t[..k];
    forall i | 0 <= i < |word| ensures !IsSpace(word[i]) {
      assert word[i] == t[i];
    }
  }

  /**
   * cmd.strip().split(None, 2): whitespace-separated tokens, at most three;
   * the third is the rest of the text with its inner whitespace kept.
   */
  function Tokenise(cmd: string): (parts: seq<string>)
    ensures |parts| <= 3
    ensures parts == [] <==> Strip(cmd) == []
    ensures WellFormedTokens(parts)
  {
    var t := Strip(cmd);
    if t == [] then [] else Tokens(t)
  }

  /** split(None, 2) on text that is already stripped and not empty. */
  function Tokens(t: string): (parts: seq<string>)
    requires t != [] && IsStripped(t)
    ensures 1 <= |parts| <= 3 && WellFormedTokens(parts)
  {
    var p := SplitWord(t);
    RestStripped(t);
    if p.1 == [] then [p.0]
    else
      var q := SplitWord(p.1);
      RestStripped(p.1);
      if q.1 == [] then [p.0, q.0] else [p.0, q.0, q.1]
  }

  /** What follows the first word of stripped text is stripped too. */
  lemma RestStripped(t: string)
    requires t != [] && IsStripped(t)
    ensures IsStripped(SplitWord(t).1)
  {
  }

  /** Tokens joined by single spaces, the shape a host writes a command in. */
  function Unwords(parts: seq<string>): string {
    if parts == [] then "" else if |parts| == 1 then parts[0] else parts[0] + " " + Unwords(parts[1..])
  }

  /** What split(None, 2) can return: nonempty tokens, the first two free of whitespace. */
  predicate WellFormedTokens(parts: seq<string>) {
    && |parts| <= 3
    && (|parts| >= 1 ==> Word(parts[0]))
    && (|parts| >= 2 ==> Word(parts[1]))
    && (|parts| == 3 ==> parts[2] != [] && IsStripped(parts[2]))
  }

  /** A token split off at whitespace: nonempty and free of whitespace. */
  predicate Word(w: string) {
    w != [] && NoSpace(w) && IsStripped(w)
  }

  lemma WordLengthOfWord(w: string, rest: string)
    requires NoSpace(w)
    requires rest == [] || IsSpace(rest[0])
    ensures WordLength(w + rest) == |w|
    decreases |w|
  {
    if w != [] {
      assert (w + rest)[1..] == w[1..] + rest;
      WordLengthOfWord(w[1..], rest);
    }
  }

  /** A lone word splits into itself and nothing. */
  lemma SplitWordAlone(w: string)
    requires w != [] && NoSpace(w)
    ensures SplitWord(w) == (w, [])
  {
    WordLengthOfWord(w, []);
    assert w + [] == w;
  }

  /** A word, one space and a text that starts with no space split at that space. */
  lemma SplitWordSpace(w: string, rest: string)
    requires w != [] && NoSpace(w)
    requires rest == [] || !IsSpace(rest[0])
    ensures SplitWord(w + " " + rest) == (w, rest)
  {
    var t := w + " " + rest;
    assert t == w + (" " + rest);
    WordLengthOfWord(w, " " + rest);
    assert t[..|w|] == w;
    assert t[|w|..] == " " + rest;
    TrimStartSpace(rest);
  }

  lemma TrimStartSpace(t: string)
    requires t == [] || !IsSpace(t[0])
    ensures TrimStart(" " + t) == t
  {
    assert (" " + t)[1..] == t;
  }

  /** Text made of words joined by single spaces is already stripped. */
  lemma StrippedJoin(w: string, rest: string)
    requires w != [] && !IsSpace(w[0])
    requires rest != [] && !IsSpace(rest[|rest| - 1])
    ensures Strip(w + " " + rest) == w + " " + rest
  {
    var t := w + " " + rest;
    assert t[0] == w[0] && t[|t| - 1] == rest[|rest| - 1];
    StripStripped(t);
  }

  lemma TokeniseOne(a: string)
    requires a != [] && NoSpace(a)
    ensures Tokenise(a) == [a]
  {
    StripStripped(a);
    SplitWordAlone(a);
  }

  lemma TokeniseTwo(a: string, b: string)
    requires a != [] && NoSpace(a)
    requires b != [] && NoSpace(b)
    ensures Tokenise(a + " " + b) == [a, b]
  {
    StrippedJoin(a, b);
    SplitWordSpace(a, b);
    SplitWordAlone(b);
  }

  lemma TokeniseThree(a: string, b: string, c: string)
    requires a != [] && NoSpace(a)
    requires b != [] && NoSpace(b)
    requires c != [] && IsStripped(c)
    ensures Tokenise(a + " " + (b + " " + c)) == [a, b, c]
  {
    var u := b + " " + c;
    assert u[0] == b[0] && u[|u| - 1] == c[|c| - 1];
    StrippedJoin(a, u);
    SplitWordSpace(a, u);
    SplitWordSpace(b, c);
  }

  lemma UnwordsThree(a: string, b: string, c: string)
    ensures Unwords([a, b, c]) == a + " " + (b + " " + c)
  {
    assert [b, c][1..] == [c];
    assert Unwords([b, c]) == b + " " + c;
    assert [a, b, c][1..] == [b, c];
  }

  /**
   * Tokenising a command written as its tokens separated by single spaces
   * gives the tokens back.
   */
  lemma TokeniseUnwords(parts: seq<string>)
    requires WellFormedTokens(parts)
    ensures Tokenise(Unwords(parts)) == parts
  {
    if |parts| == 1 {
      var a := parts[0];
      assert Unwords(parts) == a && parts == [a];
      TokeniseOne(a);
    } else if |parts| == 2 {
      var a, b := parts[0], parts[1];
      assert parts == [a, b] && [a, b][1..] == [b];
      assert Unwords(parts) == a + " " + b;
      TokeniseTwo(a, b);
    } else if |parts| == 3 {
      var a, b, c := parts[0], parts[1], parts[2];
      assert parts == [a, b, c];
      UnwordsThree(a, b, c);
      TokeniseThree(a, b, c);
    }
  }

  /** A separator between tokens: a nonempty run of whitespace. */
  predicate Gap(g: string) {
    g != [] && AllSpace(g)
  }

  predicate Gaps(gaps: seq<string>) {
    forall i :: 0 <= i < |gaps| ==> Gap(gaps[i])
  }

  /** Tokens with the given separators between them. */
  function Spaced(parts: seq<string>, gaps: seq<string>): string
    requires |parts| == |gaps| + 1
    decreases |gaps|
  {
    if gaps == [] then parts[0] else parts[0] + gaps[0] + Spaced(parts[1..], gaps[1..])
  }

  lemma SpacedTwo(a: string, b: string, g: string)
    ensures Spaced([a, b], [g]) == a + g + b
  {
    assert [a, b][1..] == [b] && [g][1..] == [];
  }

  lemma SpacedThree(a: string, b: string, c: string, g1: string, g2: string)
    ensures Spaced([a, b, c], [g1, g2]) == a + g1 + (b + g2 + c)
  {
    assert [a, b, c][1..] == [b, c] && [g1, g2][1..] == [g2];
    SpacedTwo(b, c, g2);
  }

  /** A word, a separator and text that starts with no whitespace split at that separator. */
  lemma SplitWordOf(w: string, g: string, rest: string)
    requires Word(w) && Gap(g)
    requires rest == [] || !IsSpace(rest[0])
    ensures SplitWord(w + g + rest) == (w, rest)
  {
    var t := w + g + rest;
    assert t == w + (g + rest);
    WordLengthOfWord(w, g + rest);
    assert t[..|w|] == w;
    assert t[|w|..] == g + rest;
    TrimStartSpaces(g, rest);
  }

  /**
   * SplitWord cuts t into its first word, the whitespace after it, and the
   * rest; when there is a rest, that whitespace is not empty.
   */
  lemma SplitWordLayout(t: string) returns (g: string)
    requires t != [] && !IsSpace(t[0])
    ensures AllSpace(g) && t == SplitWord(t).0 + g + SplitWord(t).1
    ensures SplitWord(t).1 != [] ==> g != []
  {
    var k := WordLength(t);
    var u := t[k..];
    g := TrimStartLayout(u);
    assert t == t[..k] + u;
    if TrimStart(u) != [] {
      assert u[0] == t[k];
    }
  }

  /** Stripped text cannot end in whitespace. */
  lemma NoTrailingGap(a: string, g: string, t: string)
    requires t == a + g && IsStripped(t) && AllSpace(g)
    ensures g == []
  {
    assert forall i :: 0 <= i < |g| ==> t[|a| + i] == g[i];
  }

  /** The tokens of stripped text, with the separators between them, make up that text. */
  lemma TokensLayout(t: string) returns (gaps: seq<string>)
    requires t != [] && IsStripped(t)
    ensures |gaps| == |Tokens(t)| - 1 && Gaps(gaps)
    ensures t == Spaced(Tokens(t), gaps)
  {
    var p := SplitWord(t);
    var g1 := SplitWordLayout(t);
    RestStripped(t);
    if p.1 == [] {
      NoTrailingGap(p.0, g1, t);
      gaps := [];
    } else {
      var q := SplitWord(p.1);
      var g2 := SplitWordLayout(p.1);
      RestStripped(p.1);
      if q.1 == [] {
        NoTrailingGap(q.0, g2, p.1);
        gaps := [g1];
        SpacedTwo(p.0, q.0, g1);
      } else {
        gaps := [g1, g2];
        SpacedThree(p.0, q.0, q.1, g1, g2);
      }
    }
  }

  /**
   * Every command is laid out as its tokens: leading whitespace, the tokens
   * with a nonempty run of whitespace between each two, trailing whitespace;
   * a command without tokens is whitespace only.
   */
  lemma TokeniseLayout(cmd: string) returns (lead: string, gaps: seq<string>, trail: string)
    ensures Tokenise(cmd) == [] ==> AllSpace(cmd)
    ensures Tokenise(cmd) != [] ==>
      && |gaps| == |Tokenise(cmd)| - 1 && Gaps(gaps) && AllSpace(lead) && AllSpace(trail)
      && cmd == lead + Spaced(Tokenise(cmd), gaps) + trail
  {
    lead, trail := StripLayout(cmd);
    var t := Strip(cmd);
    if t == [] {
      gaps := [];
      assert cmd == lead + trail;
      assert forall i :: |lead| <= i < |cmd| ==> cmd[i] == trail[i - |lead|];
    } else {
      gaps := TokensLayout(t);
    }
  }

  /** Spaced tokens form stripped text. */
  lemma SpacedStripped(parts: seq<string>, gaps: seq<string>)
    requires WellFormedTokens(parts) && parts != [] && |gaps| == |parts| - 1
    ensures Spaced(parts, gaps) != [] && IsStripped(Spaced(parts, gaps))
  {
    if |parts| == 2 {
      assert parts == [parts[0], parts[1]] && gaps == [gaps[0]];
      SpacedTwo(parts[0], parts[1], gaps[0]);
      StrippedEnds(parts[0], gaps[0], parts[1]);
    } else if |parts| == 3 {
      assert parts == [parts[0], parts[1], parts[2]] && gaps == [gaps[0], gaps[1]];
      SpacedThree(parts[0], parts[1], parts[2], gaps[0], gaps[1]);
      StrippedEnds(parts[0], gaps[0], parts[1] + gaps[1] + parts[2]);
    }
  }

  /** Text is stripped when its first and last pieces are. */
  lemma StrippedEnds(a: string, m: string, b: string)
    requires a != [] && b != [] && IsStripped(a) && IsStripped(b)
    ensures IsStripped(a + m + b)
  {
    var u := a + m + b;
    assert u[0] == a[0];
    assert u[|u| - 1] == b[|b| - 1];
  }

  lemma TokensSpaced(parts: seq<string>, gaps: seq<string>)
    requires WellFormedTokens(parts) && parts != [] && |gaps| == |parts| - 1 && Gaps(gaps)
    requires Spaced(parts, gaps) != [] && IsStripped(Spaced(parts, gaps))
    ensures Tokens(Spaced(parts, gaps)) == parts
  {
    if |parts| == 1 {
      assert parts == [parts[0]];
      SplitWordAlone(parts[0]);
    } else if |parts| == 2 {
      var a, b, g := parts[0], parts[1], gaps[0];
      assert parts == [a, b] && gaps == [g];
      SpacedTwo(a, b, g);
      SplitWordOf(a, g, b);
      SplitWordAlone(b);
    } else {
      var a, b, c, g1, g2 := parts[0], parts[1], parts[2], gaps[0], gaps[1];
      assert parts == [a, b, c] && gaps == [g1, g2];
      SpacedThree(a, b, c, g1, g2);
      SplitWordOf(a, g1, b + g2 + c);
      SplitWordOf(b, g2, c);
    }
  }

  /**
   * Conversely, any such layout of well-formed tokens tokenises to exactly
   * those tokens, whatever whitespace surrounds and separates them.
   */
  lemma TokeniseSpaced(lead: string, parts: seq<string>, gaps: seq<string>, trail: string)
    requires WellFormedTokens(parts) && parts != [] && |gaps| == |parts| - 1 && Gaps(gaps)
    requires AllSpace(lead) && AllSpace(trail)
    ensures Tokenise(lead + Spaced(parts, gaps) + trail) == parts
  {
    SpacedStripped(parts, gaps);
    StripAround(lead, Spaced(parts, gaps), trail);
    TokensSpaced(parts, gaps);
  }

  /** The verbs of the command table (main.py:312-335). */
  datatype Verb =
    | Ver | Mac | Help
    | Apl | Apc | Apd | Apr | Api | Aps | Apw
    | Get | Gets | Post | Posts | Pct | Udp
    | Save | Dir | Del | Load
    | Bookmark | Bookmarks

  function VerbName(v: Verb): string {
    match v
    case Ver => "VER"
    case Mac => "MAC"
    case Help => "HELP"
    case Apl => "APL"
    case Apc => "APC"
    case Apd => "APD"
    case Apr => "APR"
    case Api => "API"
    case Aps => "APS"
    case Apw => "APW"
    case Get => "GET"
    case Gets => "GETS"
    case Post => "POST"
    case Posts => "POSTS"
    case Pct => "PCT"
    case Udp => "UDP"
    case Save => "SAVE"
    case Dir => "DIR"
    case Del => "DEL"
    case Load => "LOAD"
    case Bookmark => "BOOKMARK"
    case Bookmarks => "BOOKMARKS"
  }

  /** The verbs in the order the table lists them. */
  const Table: seq<Verb> := [
    Ver, Mac, Help, Apl, Apc, Apd, Apr, Api, Aps, Apw, Get, Gets,
    Post, Posts, Pct, Udp, Save, Dir, Del, Load, Bookmark, Bookmarks]

  lemma TableComplete(v: Verb)
    ensures v in Table
  {
  }

  /** The first verb from position i on whose name is u. */
  function Lookup(u: string, i: nat): (r: Option<Verb>)
    requires i <= |Table|
    ensures r.Some? ==> VerbName(r.value) == u
    ensures r.None? ==> forall j :: i <= j < |Table| ==> VerbName(Table[j]) != u
    decreases |Table| - i
  {
    if i == |Table| then None
    else if VerbName(Table[i]) == u then Some(Table[i])
    else Lookup(u, i + 1)
  }

  /** The table lookup on the upper-cased first token. */
  function ParseVerb(word: string): (r: Option<Verb>)
    ensures r.Some? ==> VerbName(r.value) == Upper(word)
    ensures r.None? ==> forall v :: VerbName(v) != Upper(word)
  {
    var r := Lookup(Upper(word), 0);
    assert r.None? ==> forall v :: VerbName(v) != Upper(word) by {
      forall v | r.None? ensures VerbName(v) != Upper(word) {
        TableComplete(v);
      }
    }
    r
  }

  /**
   * What handle_command decides for one command: the handler it invokes and
   * the arguments it passes, a fixed text it returns without invoking any
   * handler, no response, or an uncaught IndexError.
   */
  datatype Action =
    | Version
    | ShowMac
    | ShowHelp
    | Radio(verb: Verb, args: seq<string>)
    | Http(url: string, secure: bool)
    | PostStart(url: string, secure: bool)
    | PostEnd
    | SetContentType(contentType: string)
    | SendUdp(ip: string, port: string, message: string)
    | SaveProgram(filename: string)
    | ListPrograms
    | DeleteProgram(filename: string)
    | LoadProgram(filename: string)
    | StoreBookmark(key: string, url: string)
    | ListBookmarks
    | Fixed(text: string)
    | NoResponse
    | Crash

  const MissingParameters := "'Error: Missing parameters"
  /** The APC entry's error text lacks the leading quote every other response has. */
  const MissingApcParameters := "Error: Missing parameters"
  const MissingUrl := "'Error: Missing URL"
  const MissingContentType := "'Error: Missing content type"
  const MissingFilename := "'Error: Missing filename"
  const InvalidPost := "'Invalid POST command"
  const InvalidPosts := "'Invalid POSTS command"

  /** The POST and POSTS entries: the sub-command token is compared as written. */
  function RoutePost(parts: seq<string>, secure: bool): Action {
    if |parts| < 2 then Crash
    else if parts[1] == "START" then (if |parts| < 3 then Crash else PostStart(parts[2], secure))
    else if parts[1] == "END" then PostEnd
    else Fixed(if secure then InvalidPosts else InvalidPost)
  }

  /** One table entry applied to the token list (main.py:313-334). */
  function Route(v: Verb, parts: seq<string>): (a: Action)
    ensures !a.NoResponse?
    ensures a.SendUdp? ==> |parts| >= 4
    ensures a.Crash? <==> (v == Post || v == Posts) && PostTokenMissing(parts)
  {
    match v
    case Ver => Version
    case Mac => ShowMac
    case Help => ShowHelp
    case Apc => if |parts| >= 3 then Radio(Apc, parts[1..3]) else Fixed(MissingApcParameters)
    case Apl => Radio(Apl, [])
    case Apd => Radio(Apd, [])
    case Apr => Radio(Apr, [])
    case Api => Radio(Api, [])
    case Aps => Radio(Aps, [])
    case Apw => Radio(Apw, [])
    case Get => if |parts| >= 2 then Http(parts[1], false) else Fixed(MissingUrl)
    case Gets => if |parts| >= 2 then Http(parts[1], true) else Fixed(MissingUrl)
    case Post => RoutePost(parts, false)
    case Posts => RoutePost(parts, true)
    case Pct => if |parts| >= 2 then SetContentType(parts[1]) else Fixed(MissingContentType)
    case Udp => if |parts| >= 4 then SendUdp(parts[1], parts[2], parts[3]) else Fixed(MissingParameters)
    case Save => if |parts| >= 2 then SaveProgram(parts[1]) else Fixed(MissingFilename)
    case Dir => ListPrograms
    case Del => if |parts| >= 2 then DeleteProgram(parts[1]) else Fixed(MissingFilename)
    case Load => if |parts| >= 2 then LoadProgram(parts[1]) else Fixed(MissingFilename)
    case Bookmark => if |parts| >= 3 then StoreBookmark(parts[1], parts[2]) else Fixed(MissingParameters)
    case Bookmarks => ListBookmarks
  }

  /**
   * The token lists on which handle_command indexes past the end: parts[0]
   * of an empty list, and the POST and POSTS entries, which read parts[1]
   * unguarded and parts[2] after START.
   */
  predicate MissingToken(parts: seq<string>) {
    || parts == []
    || ((ParseVerb(parts[0]) == Some(Post) || ParseVerb(parts[0]) == Some(Posts)) && PostTokenMissing(parts))
  }

  /** The POST entries read parts[1] unguarded, and parts[2] after START. */
  predicate PostTokenMissing(parts: seq<string>) {
    |parts| < 2 || (parts[1] == "START" && |parts| < 3)
  }

  /**
   * handle_command after the split: no token at all raises IndexError on
   * parts[0]; an unknown verb gives no response; otherwise the verb's table
   * entry decides.
   */
  function Dispatch(parts: seq<string>): (a: Action)
    ensures a.NoResponse? <==> parts != [] && ParseVerb(parts[0]).None?
    ensures a.Crash? <==> MissingToken(parts)
    ensures |parts| <= 3 ==> !a.SendUdp?
  {
    if parts == [] then Crash
    else match ParseVerb(parts[0])
      case None => NoResponse
      case Some(v) => Route(v, parts)
  }

  /** handle_command on the text after the marker. */
  function Classify(cmd: string): (a: Action)
    ensures a.NoResponse? <==> Tokenise(cmd) != [] && ParseVerb(Tokenise(cmd)[0]).None?
    ensures a.Crash? <==> MissingToken(Tokenise(cmd))
    ensures !a.SendUdp?
  {
    Dispatch(Tokenise(cmd))
  }

  /** Whatever whitespace lays out its tokens, a command is dispatched on those tokens. */
  lemma ClassifySpaced(lead: string, parts: seq<string>, gaps: seq<string>, trail: string)
    requires WellFormedTokens(parts) && parts != [] && |gaps| == |parts| - 1 && Gaps(gaps)
    requires AllSpace(lead) && AllSpace(trail)
    ensures Classify(lead + Spaced(parts, gaps) + trail) == Dispatch(parts)
  {
    TokeniseSpaced(lead, parts, gaps, trail);
  }

  /** A command has no tokens exactly when it is whitespace only. */
  lemma TokeniseBlank(cmd: string)
    ensures Tokenise(cmd) == [] <==> AllSpace(cmd)
  {
    var lead, gaps, trail := TokeniseLayout(cmd);
    if AllSpace(cmd) {
      TrimStartAllSpace(cmd);
    }
  }

  /** The text after `MJ` keeps its leading space: ` GET u` is a GET of u. */
  lemma GetAfterSpace(url: string)
    requires Word(url)
    ensures Classify(" GET " + url) == Http(url, false)
  {
    assert Word("GET");
    SpacedTwo("GET", url, " ");
    assert " GET " + url == " " + ("GET" + " " + url) + "";
    ClassifySpaced(" ", ["GET", url], [" "], "");
    ParseGet();
    ArgumentPassed(["GET", url], Get);
  }

  lemma ParseGet()
    ensures ParseVerb("GET") == Some(Get)
  {
    assert Upper("GET") == "GET";
    var r := ParseVerb("GET");
    assert VerbName(Get) == "GET";
    GetName(r.value);
  }

  lemma GetName(v: Verb)
    ensures VerbName(v) == "GET" <==> v == Get
  {
    match v
    case Ver =>
    case Mac =>
    case Help =>
    case Apl =>
    case Apc =>
    case Apd =>
    case Apr =>
    case Api =>
    case Aps =>
    case Apw =>
    case Get =>
    case Gets =>
    case Post =>
    case Posts =>
    case Pct =>
    case Udp =>
    case Save =>
    case Dir =>
    case Del =>
    case Load =>
    case Bookmark =>
    case Bookmarks =>
  }

  /** Runs of spaces and tabs separate tokens, and the third token keeps its inner whitespace. */
  lemma TokeniseMixedWhitespace()
    ensures Tokenise("GET  a\tb  c") == ["GET", "a", "b  c"]
  {
    assert Word("GET") && Word("a") && IsStripped("b  c");
    SpacedThree("GET", "a", "b  c", "  ", "\t");
    assert "GET  a\tb  c" == "" + ("GET" + "  " + ("a" + "\t" + "b  c")) + "";
    TokeniseSpaced("", ["GET", "a", "b  c"], ["  ", "\t"], "");
  }

  /** UDP can never be sent: split(None, 2) never yields the four tokens its entry asks for. */
  lemma UdpAlwaysMissingParameters(parts: seq<string>)
    requires |parts| <= 3 && parts != [] && ParseVerb(parts[0]) == Some(Udp)
    ensures Dispatch(parts) == Fixed(MissingParameters)
  {
  }

  /** A verb that needs an argument and gets none answers with its fixed error text. */
  lemma MissingArgument(parts: seq<string>, v: Verb)
    requires |parts| == 1 && ParseVerb(parts[0]) == Some(v)
    ensures v == Get || v == Gets ==> Dispatch(parts) == Fixed(MissingUrl)
    ensures v == Pct ==> Dispatch(parts) == Fixed(MissingContentType)
    ensures v == Save || v == Del || v == Load ==> Dispatch(parts) == Fixed(MissingFilename)
    ensures v == Post || v == Posts ==> Dispatch(parts) == Crash
    ensures v == Apc ==> Dispatch(parts) == Fixed(MissingApcParameters)
    ensures v == Bookmark ==> Dispatch(parts) == Fixed(MissingParameters)
  {
  }

  /** With an argument present, the one-argument entries pass the second token on unchanged. */
  lemma ArgumentPassed(parts: seq<string>, v: Verb)
    requires 2 <= |parts| <= 3 && ParseVerb(parts[0]) == Some(v)
    ensures v == Get ==> Dispatch(parts) == Http(parts[1], false)
    ensures v == Gets ==> Dispatch(parts) == Http(parts[1], true)
    ensures v == Pct ==> Dispatch(parts) == SetContentType(parts[1])
    ensures v == Save ==> Dispatch(parts) == SaveProgram(parts[1])
    ensures v == Del ==> Dispatch(parts) == DeleteProgram(parts[1])
    ensures v == Load ==> Dispatch(parts) == LoadProgram(parts[1])
  {
  }

  /** APC and BOOKMARK pass the second and third tokens on, and need both. */
  lemma TwoArgumentsPassed(parts: seq<string>, v: Verb)
    requires 2 <= |parts| <= 3 && ParseVerb(parts[0]) == Some(v)
    ensures |parts| == 3 && v == Bookmark ==> Dispatch(parts) == StoreBookmark(parts[1], parts[2])
    ensures |parts| == 3 && v == Apc ==> Dispatch(parts) == Radio(Apc, [parts[1], parts[2]])
    ensures |parts| == 2 && v == Bookmark ==> Dispatch(parts) == Fixed(MissingParameters)
    ensures |parts| == 2 && v == Apc ==> Dispatch(parts) == Fixed(MissingApcParameters)
  {
    if |parts| == 3 {
      SecondAndThird(parts);
    }
  }

  lemma SecondAndThird<T>(s: seq<T>)
    requires |s| >= 3
    ensures s[1..3] == [s[1], s[2]]
  {
  }

  /**
   * Only the verb is case-folded: the POST sub-command must be written START
   * or END in capitals, anything else is an invalid POST command.
   */
  lemma PostSubcommandExact(parts: seq<string>, secure: bool)
    requires 2 <= |parts| <= 3
    requires ParseVerb(parts[0]) == Some(if secure then Posts else Post)
    ensures parts[1] == "END" ==> Dispatch(parts) == PostEnd
    ensures parts[1] == "START" && |parts| == 3 ==> Dispatch(parts) == PostStart(parts[2], secure)
    ensures parts[1] == "START" && |parts| == 2 ==> Dispatch(parts) == Crash
    ensures parts[1] != "START" && parts[1] != "END" ==>
      Dispatch(parts) == Fixed(if secure then InvalidPosts else InvalidPost)
  {
  }

  /** A table entry reads only the tokens after the verb. */
  lemma RouteTail(v: Verb, a: seq<string>, b: seq<string>)
    requires |a| == |b| && a != [] && a[1..] == b[1..]
    ensures Route(v, a) == Route(v, b)
  {
    SameTail(a, b);
  }

  lemma SameTail<T>(a: seq<T>, b: seq<T>)
    requires |a| == |b| && a != [] && a[1..] == b[1..]
    ensures forall i :: 1 <= i < |a| ==> a[i] == b[i]
    ensures |a| >= 3 ==> a[1..3] == b[1..3]
  {
    assert forall i :: 1 <= i < |a| ==> a[i] == a[1..][i - 1];
    if |a| >= 3 {
      assert a[1..3] == a[1..][..2];
    }
  }

  /** Commands whose verbs differ only in case are dispatched alike. */
  lemma DispatchIgnoresVerbCase(a: seq<string>, b: seq<string>)
    requires |a| == |b| && a != [] && a[1..] == b[1..] && Upper(a[0]) == Upper(b[0])
    ensures Dispatch(a) == Dispatch(b)
  {
    if ParseVerb(a[0]).Some? {
      RouteTail(ParseVerb(a[0]).value, a, b);
    }
  }

  /** A command written as its tokens is dispatched on those tokens. */
  lemma ClassifyUnwords(parts: seq<string>)
    requires WellFormedTokens(parts)
    ensures Classify(Unwords(parts)) == Dispatch(parts)
  {
    TokeniseUnwords(parts);
  }

  /** A command that has no content at all is an uncaught IndexError. */
  lemma BlankCommandCrashes(cmd: string)
    requires AllSpace(cmd)
    ensures Classify(cmd) == Crash
  {
    TrimStartAllSpace(cmd);
  }
}
