# PicoJuice serial command engine, modelled in Dafny

PicoJuice is MicroPython firmware for a Raspberry Pi Pico W. It makes the
board a network co-processor for a host on a serial line. The host writes
text lines. A line whose upper-cased form starts with `MJ` is a command:

- a verb, looked up without regard to case in a fixed table;
- up to two arguments, the second one possibly holding spaces.

The firmware answers with text lines. This project models the engine that
turns received characters into responses and state changes, and proves what
that engine guarantees.

The modules follow the structure of `main.py`:

- `Text`: the MicroPython string operations the firmware relies on (`strip`,
  `upper`, `startswith`, `find`, `join`, `split`, `str(n)`), on ASCII text.
- `Framing`: `read_line` as a splitter of the character stream, the `OK`
  handshake of `__init__`, and the `MJ` marker check of `run`.
- `Commands`: `split(None, 2)`, the verb table, each entry's arity guard, and
  the action `handle_command` takes (a handler call with its arguments, a
  fixed text, no response, or an uncaught `IndexError`).
- `Bookmarks`, `Http`, `Mac`, `Programs`: the bookmark store, the URL
  prefixing of `handle_http`, the MAC rendering, and the `.IJB` program store
  (SAVE, DIR, DEL, LOAD).
- `Protocol`: the firmware as a state machine over a `Device` snapshot:
  - `Boot`, what `__init__` does;
  - `Exec`, one `handle_command`;
  - `RunStep`, one iteration of `run`'s loop;
  - `Run`, a whole run.

  What the firmware only consults is gathered in an `Env`:
  - the radio's connection state and MAC address;
  - the replies of the radio, HTTP and UDP libraries;
  - the help text;
  - the iteration orders of `os.listdir` and of a dictionary.
- `Behaviour`: lemmas about `Protocol`. Among them:
  - the handshake;
  - invariants every iteration keeps: every POST body is empty, the bookmark
    map mirrors `bookmarks.json`, and in the program store only `.IJB`
    files are ever created, changed or removed;
  - round trips between handlers.
- `Engine`: the `PicoJuice` class. Its fields are the firmware's state; its
  methods (`ReadLine`, `HandleSave`, `HandleLoad`, `HandleCommand`,
  `RunOnce`, …) update those fields in place, with the loops of the source.
  Each method is proved to do exactly what the corresponding `Protocol`
  function says, so the `Behaviour` lemmas hold of the class as well.

Three consequences of the code shape the model:

- **The marker must start the line.** A line is dispatched only when its
  upper-cased form starts with `MJ` (main.py:344), so the `find` that
  locates the marker always returns 0 and the command is the text after
  the first two characters.
- **SAVE keeps early lines.** Non-blank lines that arrive before the first
  `OK` of a SAVE transfer are part of the saved program too
  (main.py:271-281).
- **UDP can never be sent.** The UDP entry of the table asks for four
  tokens, but `split(None, 2)` yields at most three (main.py:310-328), so
  UDP always answers `'Error: Missing parameters`
  (`Commands.UdpAlwaysMissingParameters`).

## Model

| member | source | states |
|---|---|---|
| Text.TrimStart | main.py:106 | leading whitespace removed: every character dropped is whitespace, the result does not start with whitespace and keeps the last character |
| Text.TrimEnd | main.py:106 | trailing whitespace removed: every character dropped is whitespace, the result does not end with whitespace and keeps the first character |
| Text.Strip | main.py:106 | `str.strip()`: the result neither starts nor ends with whitespace and is no longer than the input; its layout is stated by `Text.StripLayout` |
| Text.TrimStartAllSpace | main.py:106 | text made only of whitespace strips to the empty string |
| Text.StripContents | main.py:106 | stripping only removes characters |
| Text.TrimStartSuffix | main.py:106 | trimming the front leaves a suffix of the text |
| Text.TrimEndPrefix | main.py:106 | trimming the back leaves a prefix of the text |
| Text.StripStripped | main.py:106 | stripping already stripped text changes nothing |
| Text.StripLayout | main.py:106 | every text is whitespace, then its stripped form, then whitespace |
| Text.TrimStartLayout | main.py:106 | every text is whitespace followed by its left-trimmed form |
| Text.TrimEndLayout | main.py:106 | every text is its right-trimmed form followed by whitespace |
| Text.TrimStartSpaces | main.py:106 | whitespace in front of text that starts with none is exactly what is trimmed |
| Text.TrimEndSpaces | main.py:106 | whitespace after text that ends with none is exactly what is trimmed |
| Text.StripAround | main.py:106 | any whitespace around nonempty stripped text strips off to that text |
| Text.Upper | main.py:311 | `str.upper()`: same length, each character upper-cased on its own |
| Text.Find | main.py:345 | `str.find`: an index where the pattern occurs with no earlier occurrence, or -1 when it occurs nowhere |
| Text.FindPrefix | main.py:344-345 | a text starting with the pattern finds it at 0 |
| Text.IndexOf | main.py:278 | first index of a character, with no earlier occurrence, or the length when absent |
| Text.Split | main.py:299 | at least one piece, and no piece holds the separator |
| Text.SplitJoin | main.py:278 | splitting undoes `'\n'.join` for pieces free of the separator |
| Text.SplitAtSeparator | main.py:278 | a text free of the separator, then the separator, splits off as the first piece |
| Text.JoinSplit | main.py:278 | joining the pieces of a split gives the text back |
| Text.JoinCons | main.py:278 | the join of x followed by more pieces is x, the separator, then the join of the rest |
| Text.NatToString | main.py:287 | `str(n)`: nonempty decimal digits without a leading zero |
| Text.DecimalRoundTrip | main.py:287 | reading the decimal rendering of n back gives n |
| Text.DistinctCard | main.py:91 | a sequence without repeats is as long as its set of elements |
| Text.EnumerationSize | main.py:284-287 | an order that holds each element of a set once is as long as the set |
| Text.Join | main.py:278 | `str.join`: defines the join; its inverse is `Text.SplitJoin` |
| Framing.LineLength | main.py:102-110 | the position of the first CR or LF, before which there is none, or the length when none has arrived |
| Framing.NextLine | main.py:98-111 | a line is returned only when a terminator has arrived, and the rest is shorter than the input |
| Framing.NextLineComplete | main.py:102-110 | no line is returned exactly when the stream holds no CR or LF |
| Framing.NextLineClean | main.py:105-109 | a received line is stripped and holds no CR or LF |
| Framing.NextLineAt | main.py:105-110 | the line is the stripped text before the first terminator, and the rest is what follows that terminator |
| Framing.ReadLine | main.py:98-111 | the buffering loop returns exactly `NextLine`'s line and rest, or nothing with the stream untouched |
| Framing.Residue | main.py:102-111 | what is left after every complete line has been read holds no complete line |
| Framing.LinesWellFormed | main.py:105-109 | every line of the stream is stripped and free of CR and LF |
| Framing.DropLinesStep | main.py:98-111 | reading one more line after n lines leaves the stream after n + 1 lines |
| Framing.DropSucc | main.py:98-111 | dropping n + 1 lines is dropping n lines, then one more |
| Framing.LinesAfterDrop | main.py:98-111 | after n lines have been read, the remaining lines are exactly the ones after the first n |
| Framing.DropStep | main.py:98-111 | dropping n > 0 lines is dropping the first, then n - 1 more |
| Framing.LinesStep | main.py:98-111 | the lines of a stream are its next line, then the lines after it |
| Framing.CountCons | main.py:273 | the count of a list with one more line in front |
| Framing.CountSnoc | main.py:273 | the count of a list with one more line at the back |
| Framing.Occurrence | main.py:44-47 | the index of the copy of x preceded by exactly n copies, or None when x occurs at most n times |
| Framing.OccurrenceAt | main.py:44-47 | a copy preceded by exactly n copies is the one found |
| Framing.OccurrenceAbsent | main.py:44-47 | with at most n copies there is no copy n + 1 |
| Framing.FirstAt | main.py:44-47 | the first `OK` after lines that hold none is found at that position |
| Framing.AwaitAck | main.py:44-47 | the handshake loop acknowledges exactly when an `OK` line is in the stream, and then leaves the stream after the first one; otherwise it has read every complete line |
| Framing.AckAbsent | main.py:44-47 | out of complete lines with no `OK` seen, the stream holds none |
| Framing.AckHere | main.py:44-47 | the next line is the first `OK`, at the position of the lines already skipped |
| Framing.AckSkip | main.py:44-47 | a line that is not `OK` joins the skipped lines and no `OK` has been seen |
| Framing.AwaitAckSkipsOthers | main.py:44-47 | every line before the acknowledgment differs from `OK` |
| Framing.CountPositive | main.py:273 | a line of a list occurs in it at least once |
| Framing.CommandBody | main.py:344-345 | a command exactly when the line starts with `MJ` in either case, and the command is the line minus its first two characters |
| Commands.WordLength | main.py:310 | the length of the leading run of non-whitespace characters |
| Commands.SplitWord | main.py:310 | the first token is nonempty and free of whitespace, and the rest starts with no whitespace; the layout is stated by `Commands.SplitWordLayout` and `Commands.SplitWordOf` |
| Commands.WordPrefix | main.py:310 | the leading word is nonempty, free of whitespace and stripped |
| Commands.Tokenise | main.py:310 | `cmd.strip().split(None, 2)`: at most three tokens, none exactly when the command is blank, each nonempty, the first two free of whitespace, all stripped; the layout is stated by `Commands.TokeniseLayout` and `Commands.TokeniseSpaced` |
| Commands.Tokens | main.py:310 | on stripped nonempty text: one to three well-formed tokens; `Commands.TokensLayout` states how they make up the text |
| Commands.RestStripped | main.py:310 | what follows the first word of stripped text is stripped |
| Commands.WordLengthOfWord | main.py:310 | a whitespace-free word followed by whitespace or nothing is split at its end |
| Commands.SplitWordAlone | main.py:310 | a lone word splits into itself and nothing |
| Commands.SplitWordSpace | main.py:310 | a word, a space and text not starting with whitespace split at that space |
| Commands.TrimStartSpace | main.py:310 | a single leading space is trimmed off |
| Commands.StrippedJoin | main.py:310 | words joined by single spaces are already stripped |
| Commands.TokeniseOne | main.py:310 | a single word tokenises to itself |
| Commands.TokeniseTwo | main.py:310 | two words separated by one space tokenise to those two |
| Commands.TokeniseThree | main.py:310 | two words and a stripped rest tokenise to those three, the rest with its inner whitespace kept |
| Commands.UnwordsThree | main.py:310 | three tokens written with single spaces |
| Commands.SpacedTwo | main.py:310 | two tokens with one separator |
| Commands.SpacedThree | main.py:310 | three tokens with two separators |
| Commands.SplitWordOf | main.py:310 | a word, any nonempty whitespace run and text not starting with whitespace split into the word and that text |
| Commands.SplitWordLayout | main.py:310 | every text starting with a non-space is its first word, whitespace, then the rest, the whitespace being nonempty when a rest follows |
| Commands.NoTrailingGap | main.py:310 | stripped text does not end in whitespace |
| Commands.TokensLayout | main.py:310 | stripped text is its tokens with a nonempty whitespace run between each two |
| Commands.TokeniseLayout | main.py:310 | every command is whitespace, its tokens with nonempty whitespace runs between them, whitespace; a command without tokens is whitespace only |
| Commands.SpacedStripped | main.py:310 | well-formed tokens with separators between them form nonempty stripped text |
| Commands.StrippedEnds | main.py:310 | text is stripped when its first and last pieces are |
| Commands.TokensSpaced | main.py:310 | stripped text laid out as tokens and separators splits back to those tokens |
| Commands.TokeniseSpaced | main.py:310 | any whitespace around and between well-formed tokens tokenises to exactly those tokens |
| Commands.TokeniseBlank | main.py:310 | a command has no tokens exactly when it is whitespace only |
| Commands.TokeniseMixedWhitespace | main.py:310 | runs of spaces and tabs separate tokens, and the third token keeps its inner whitespace |
| Commands.TokeniseUnwords | main.py:310 | any well-formed token list, written with single spaces, tokenises back to itself |
| Commands.TableComplete | main.py:312-335 | every verb is in the table |
| Commands.Lookup | main.py:312-336 | a verb found has that name; none found means no verb from that position on has it |
| Commands.ParseVerb | main.py:311-338 | the verb whose name is the upper-cased token, or none when no verb has that name |
| Commands.Route | main.py:313-334 | an entry never gives "no response", sends UDP only with four tokens, and crashes exactly for POST/POSTS with a missing sub-command or a START without a URL |
| Commands.Dispatch | main.py:309-338 | "no response" exactly for an unknown verb, a crash exactly when a needed token is missing, and never UDP on at most three tokens |
| Commands.Classify | main.py:309-338 | `handle_command` on a body: the same, stated on the body's tokens, and UDP is never sent |
| Commands.UdpAlwaysMissingParameters | main.py:310-328 | UDP always answers `'Error: Missing parameters` |
| Commands.MissingArgument | main.py:317-333 | with the verb alone, each entry gives its own error text (APC without the quote), or crashes for POST/POSTS |
| Commands.ArgumentPassed | main.py:323-332 | GET, GETS, PCT, SAVE, DEL and LOAD pass the second token on unchanged when it is there |
| Commands.TwoArgumentsPassed | main.py:317-333 | APC and BOOKMARK pass the second and third tokens on, and give their error text with only two tokens |
| Commands.PostSubcommandExact | main.py:325-326 | only the exact words START and END are sub-commands; START without a URL crashes; anything else is an invalid POST or POSTS command |
| Commands.RouteTail | main.py:313-334 | an entry reads only the tokens after the verb |
| Commands.DispatchIgnoresVerbCase | main.py:311 | commands whose verbs differ only in case are dispatched alike |
| Commands.ClassifyUnwords | main.py:309-338 | a command written as its tokens is dispatched on exactly those tokens |
| Commands.ClassifySpaced | main.py:309-338 | whatever whitespace lays out its tokens, a command is dispatched on those tokens |
| Commands.GetAfterSpace | main.py:309-324 | the text after the marker keeps its leading space and ` GET u` is a GET of u |
| Commands.ParseGet | main.py:311-323 | the token `GET` is the GET verb |
| Commands.GetName | main.py:323 | only the GET verb is named `GET` |
| Commands.BlankCommandCrashes | main.py:310-311 | a blank command raises `IndexError` on `parts[0]` |
| Bookmarks.Resolve | main.py:93-96 | a stored `**` key gives its URL; an unknown key and any other text give themselves |
| Bookmarks.Store | main.py:79-82 | a `**` key now maps to the URL and every other entry is unchanged; any other key leaves the map unchanged |
| Bookmarks.StoreReply | main.py:79-86 | `'Bookmark saved` exactly for a `**` key, the rejection text exactly otherwise |
| Bookmarks.ResolveAfterStore | main.py:78-96 | a bookmark just stored resolves to its URL |
| Bookmarks.ResolveOtherAfterStore | main.py:78-96 | storing one key changes how no other text resolves |
| Bookmarks.ResolvePlain | main.py:94-96 | text without the prefix is returned unchanged whatever the map |
| Bookmarks.InOrder | main.py:91 | the keys listed are in the map and in the iteration order, and there are no more of them than that order has |
| Bookmarks.Entries | main.py:91 | one `'key: url` line per key, in order |
| Bookmarks.Listing | main.py:88-90 | an empty map lists as `'No bookmarks found` |
| Bookmarks.InOrderAll | main.py:91 | an order made only of map keys is kept whole |
| Bookmarks.EntriesNoNewline | main.py:91 | entry lines of keys and URLs free of line feeds hold no line feed |
| Bookmarks.ListingLines | main.py:88-91 | a non-empty map lists as exactly one entry line per key in iteration order, as many lines as entries, every bookmark among them |
| Bookmarks.EntriesCover | main.py:91 | every bookmark's entry is among the listed entries when the order enumerates the keys |
| Bookmarks.Load | main.py:71-76 | defines the map loaded from bookmarks.json, the empty map without one; boot uses it by `Behaviour.BootHandshake` |
| Http.Target | main.py:215-216 | the result starts with `http` and ends with the URL, and equals it exactly when the URL already starts with `http` |
| Http.TargetIdempotent | main.py:215-216 | prefixing a prefixed URL changes nothing, whatever the secure flag |
| Http.TargetScheme | main.py:215-216 | without a scheme, `https://` is added exactly when secure |
| Http.HostStartingWithHttp | main.py:215 | a host whose name starts with `http` is sent without any scheme, even on GETS |
| Http.RequestUrl | main.py:214-216 | the request URL starts with `http` and ends with the resolved URL |
| Http.RequestUrlOfBookmark | main.py:214-216 | a stored bookmark key is fetched at its URL, with the scheme added when the URL has none |
| Mac.HexDigit | main.py:307 | the digit for a value below 16 is a lower-case hexadecimal digit |
| Mac.DigitValue | main.py:307 | the inverse of `HexDigit` on lower-case hexadecimal digits, None on anything else |
| Mac.DigitValueOf | main.py:307 | reading a digit back gives its value |
| Mac.Pair | main.py:307 | `f'{b:02x}'`: exactly two lower-case hexadecimal digits |
| Mac.Hex | main.py:307 | two hexadecimal digits per byte |
| Mac.RenderMac | main.py:305-307 | a quote followed by 2·n lower-case hexadecimal digits, length 1 + 2·n |
| Mac.ParseHex | main.py:307 | a parse consumes two digits per byte |
| Mac.ParseHexRoundTrip | main.py:307 | parsing the hexadecimal rendering gives the bytes back |
| Mac.ParseDigits | main.py:307 | two digits in front of more text parse to their byte, then the rest |
| Mac.ParseMacRoundTrip | main.py:305-307 | reading the MAC response back gives the address |
| Mac.RenderMacInjective | main.py:305-307 | different addresses give different responses |
| Mac.RenderMacExample | main.py:305-307 | DE:AD:BE:EF:00:01 renders as `'deadbeef0001` |
| Programs.ProgramFile | main.py:277-298 | the file name is the program name followed by `.IJB` |
| Programs.ProgramFileInjective | main.py:277-298 | different program names name different files |
| Programs.Payload | main.py:280-281 | the collected lines are non-blank, not `OK`, taken from the input, no more than it |
| Programs.PayloadAppend | main.py:271-281 | collection goes line by line, in arrival order |
| Programs.SaveTransfer | main.py:266-281 | when it ends, the transfer has read through the second `OK`; while it has not, at most one `OK` has arrived |
| Programs.SaveContents | main.py:271-279 | the stored text is the `\n`-join of the lines collected up to the second `OK`, however many lines follow it |
| Programs.PayloadSkipsAck | main.py:273-276 | the opening `OK` is not collected |
| Programs.CountAppend | main.py:273 | `OK` lines of two lists add up |
| Programs.SaveTwo | main.py:266-281 | `OK`, a, b, `OK` stores `a\nb` after reading four lines |
| Programs.SaveExample | main.py:266-281 | the lines `OK`, `A`, `B`, `OK` store `A\nB` |
| Programs.SaveNothing | main.py:266-281 | nothing between the two `OK` lines stores an empty file |
| Programs.SaveSkipsBlankKeepsEarly | main.py:271-281 | a blank line is dropped, and a line before the first `OK` is kept |
| Programs.SaveSkipsBlankExample | main.py:271-281 | `X`, `OK`, blank, `A`, `OK` store `X\nA` |
| Programs.FileLines | main.py:299 | an empty file has no lines |
| Programs.PiecesAsLines | main.py:299 | one line per piece, without an empty line after a final line feed |
| Programs.Terminated | main.py:299 | each piece with its line feed kept |
| Programs.Replay | main.py:299-300 | what LOAD sends: one text per line of the file, that line stripped |
| Programs.StripAll | main.py:300 | each line stripped, in order |
| Programs.StripTerminated | main.py:300 | a stripped line keeps its text when its line feed is stripped off |
| Programs.ReplaySaved | main.py:278-300 | a program saved from received lines is sent back by LOAD as exactly the collected lines |
| Programs.ReplayJoin | main.py:278-300 | stripped pieces without line feeds, joined and replayed, come back as themselves |
| Programs.StripPieces | main.py:299-300 | stripping each line of a joined text gives back its pieces |
| Programs.PayloadClean | main.py:271-279 | the lines a SAVE collects from received lines are nonempty, stripped and free of line feeds |
| Programs.ReplayLine | main.py:299-300 | line i of a joined text, stripped, is piece i |
| Programs.FileLinesJoin | main.py:278-299 | the lines of a joined text are its pieces, each but the last with its line feed |
| Programs.ProgramNames | main.py:284 | only files of the directory ending in `.IJB` are listed |
| Programs.DirEntries | main.py:287 | one `'name size` line per program, the size being the content's length |
| Programs.DirListing | main.py:283-286 | with no `.IJB` file the listing is `'No .IJB files found` |
| Programs.SavedProgramListed | main.py:284 | a saved program is listed when the directory order holds it |
| Programs.OthersNotListed | main.py:284 | a file without the extension is never listed |
| Programs.ProgramNamesExact | main.py:284 | a name is listed exactly when it is in the directory, is a file and ends in `.IJB` |
| Programs.DirListingLines | main.py:283-287 | the lines of a non-empty listing are exactly one entry per program, in directory order |
| Programs.ProgramSet | main.py:284 | the `.IJB` files of the directory |
| Programs.ProgramNamesDistinct | main.py:284 | a directory order without repeats lists no program twice |
| Programs.ProgramNamesEnumerate | main.py:284 | an order holding every file once lists every `.IJB` file exactly once |
| Programs.DirListingOfDirectory | main.py:283-287 | for such an order, DIR names every `.IJB` file exactly once, answers the fixed text when there is none, and otherwise lists one entry line per program |
| Programs.DirectoryLines | main.py:283-287 | for such an order the lines of a non-empty listing are its entries |
| Programs.Delete | main.py:289-294 | an existing program file is removed with `'File deleted`; otherwise nothing changes and the reply is `'Error deleting file` |
| Programs.DeleteOnlyThat | main.py:289-294 | after DEL the program is gone and every other file is as it was |
| Behaviour.BootHandshake | main.py:40-69 | boot never crashes; it completes exactly when an `OK` line arrives, with the banner first and then only the auto-connect text, the bookmarks of the file, and the loop on the lines after the `OK`; otherwise nothing is sent and every complete line is read; either way the session is fresh, no request has gone out and the files are as found |
| Behaviour.BootAcknowledged | main.py:44-50 | after the first `OK`, the banner is the first text sent, the loop starts on the lines after it, and all earlier lines were not `OK` |
| Behaviour.HaltedStays | main.py:340-349 | a blocked or crashed firmware stays as it is |
| Behaviour.CommandStep | main.py:343-348 | an iteration on a marked line runs `handle_command` on the text after the marker and sends its response |
| Behaviour.StepShape | main.py:340-349 | an iteration changes the input and the status, then either stops or runs one action |
| Behaviour.UnmarkedLineIgnored | main.py:344 | a line without the marker is read and has no other effect |
| Behaviour.UnknownVerbIgnored | main.py:336-348 | a command with an unknown verb sends nothing and changes nothing but the input |
| Behaviour.Unanswered | main.py:347 | no response means nothing is sent |
| Behaviour.Crashes | main.py:311-326 | an uncaught `IndexError` stops the firmware |
| Behaviour.BlankCommandStops | main.py:310-311 | a marker with nothing after it stops the firmware |
| Behaviour.SentOnlyGrows | main.py:340-349 | what has been sent is never taken back |
| Behaviour.ExecSentGrows | main.py:309-338 | no handler takes back what was sent |
| Behaviour.OfflineIssuesNothing | main.py:211-212 | while disconnected no iteration issues an HTTP request |
| Behaviour.ExecOffline | main.py:211-212 | while disconnected no handler issues an HTTP request |
| Behaviour.ExecHttpOffline | main.py:211-212 | GET and GETS while disconnected change nothing and answer `'Not Connected` |
| Behaviour.BootPostBodiesEmpty | main.py:52-58 | boot starts with empty POST data and no request |
| Behaviour.HttpKeepsPostBodiesEmpty | main.py:210-229 | an HTTP call whose POST data is empty issues only empty-bodied POSTs |
| Behaviour.ExecKeepsPostBodiesEmpty | main.py:231-251 | no handler makes the POST data non-empty or issues a POST with a body |
| Behaviour.PostEndKeepsPostBodiesEmpty | main.py:238-251 | POST END sends the (empty) session data |
| Behaviour.StepKeepsPostBodiesEmpty | main.py:340-349 | every iteration keeps all POST bodies empty |
| Behaviour.RunPostBodiesEmpty | main.py:340-349 | from boot on, every POST the firmware issues has an empty body |
| Behaviour.BootBookmarksMirrorFile | main.py:59-76 | after boot the bookmark map is what bookmarks.json holds |
| Behaviour.StepKeepsBookmarksMirrorFile | main.py:78-86 | every iteration keeps the map equal to the file's |
| Behaviour.ExecKeepsBookmarksMirrorFile | main.py:83-85 | every handler keeps the map equal to the file's |
| Behaviour.RunBookmarksMirrorFile | main.py:340-349 | while the firmware runs, its bookmark map is the one in bookmarks.json |
| Behaviour.NewBookmarksPrefixed | main.py:79-82 | every key an iteration adds to the map starts with `**` |
| Behaviour.ExecNewBookmarksPrefixed | main.py:79-82 | every key a handler adds to the map starts with `**` |
| Behaviour.OtherFilesUntouched | main.py:266-303 | no iteration creates, changes or removes an entry of the program store whose name does not end in `.IJB` |
| Behaviour.ExecOtherFilesUntouched | main.py:277-291 | no handler creates, changes or removes an entry of the program store whose name does not end in `.IJB` |
| Behaviour.ExecFiles | main.py:266-303 | of all the handlers only SAVE and DEL change the program store |
| Behaviour.NotProgramFile | main.py:277 | a name without the extension is no program's file |
| Behaviour.ContentTypeOnlyByPct | main.py:253-255 | only PCT changes the Content-Type |
| Behaviour.EndPostIdle | main.py:239-240 | POST END without a session answers `'No POST in progress` and changes nothing |
| Behaviour.PostStartOpens | main.py:231-236 | POST START opens a session on the URL with the secure flag and empty data, and changes nothing else |
| Behaviour.PostEndCloses | main.py:238-251 | POST END on an open session issues one POST of the session data to the prefixed URL (none while disconnected), then closes the session and clears its data |
| Behaviour.GuardAnswersOnly | main.py:317-333 | an entry whose arity guard fails only answers its error text |
| Behaviour.PostUsesContentType | main.py:222-255 | PCT, POST START, POST END issue one POST to the prefixed URL with that Content-Type and an empty body, and close the session |
| Behaviour.BookmarkThenGet | main.py:78-220 | after BOOKMARK, a GET of the key fetches the stored URL, with the verb's scheme added when it has none |
| Behaviour.ExecBookmark | main.py:333 | the BOOKMARK entry runs `handle_bookmark` |
| Behaviour.ExecGet | main.py:323-324 | the GET entries run `handle_http` |
| Behaviour.ExecPct | main.py:327 | the PCT entry runs `handle_pct` |
| Behaviour.ExecPostStart | main.py:325-326 | POST START runs `handle_post_start` |
| Behaviour.ExecPostEnd | main.py:325-326 | POST END runs `handle_post_end` |
| Behaviour.SaveWaitsForSecondOk | main.py:266-281 | without a second `OK`, SAVE sends `LIST`, reads every complete line, writes nothing and blocks |
| Behaviour.SaveThenLoad | main.py:266-303 | after a SAVE, LOAD of the same name sends back the collected lines in arrival order, then `'File loaded` |
| Behaviour.ReceivedLinesClean | main.py:105-109 | the lines received before the n-th are stripped and have no line feed |
| Behaviour.SaveWrites | main.py:267-279 | a completed SAVE sends `LIST`, writes the content to the program's file and replies `'File saved` |
| Behaviour.DeleteThenLoad | main.py:289-303 | after DEL, LOAD of the same name answers `'Error loading file` |
| Behaviour.ExecDel | main.py:331 | the DEL entry runs `handle_del` |
| Behaviour.ExecLoad | main.py:332 | the LOAD entry runs `handle_load` |
| Behaviour.SavedThenListed | main.py:266-287 | after SAVE, DIR lists the program when the directory order holds it |
| Behaviour.ExecDir | main.py:330 | the DIR entry runs `handle_dir` and changes nothing |
| Behaviour.ExecListBookmarks | main.py:334 | the BOOKMARKS entry runs `handle_list_bookmarks` and changes nothing |
| Behaviour.DirListsEachProgramOnce | main.py:283-287 | when the orders enumerate, DIR changes nothing, names every `.IJB` file exactly once, answers the fixed text when there is none, and otherwise answers one entry line per program |
| Behaviour.BookmarksListsEachOnce | main.py:88-91 | when the orders enumerate, BOOKMARKS on a non-empty map changes nothing and answers one entry line per bookmark, every bookmark among them |
| Protocol.Boot | main.py:40-69 | defines `__init__`; its properties are `Behaviour.BootHandshake` |
| Protocol.HandleHttp | main.py:210-229 | defines `handle_http`; its properties are `Behaviour.ExecHttpOffline` and `Behaviour.BookmarkThenGet` |
| Protocol.HandlePostStart | main.py:231-236 | defines `handle_post_start`; its properties are `Behaviour.PostStartOpens` |
| Protocol.HandlePostEnd | main.py:238-251 | defines `handle_post_end`; its properties are `Behaviour.PostEndCloses` and `Behaviour.EndPostIdle` |
| Protocol.HandlePct | main.py:253-255 | defines `handle_pct`; its properties are `Behaviour.ContentTypeOnlyByPct` and `Behaviour.PostUsesContentType` |
| Protocol.HandleSave | main.py:266-281 | defines `handle_save`; its properties are `Behaviour.SaveWrites` and `Behaviour.SaveWaitsForSecondOk` |
| Protocol.HandleLoad | main.py:296-303 | defines `handle_load`; its properties are `Behaviour.SaveThenLoad` and `Behaviour.DeleteThenLoad` |
| Protocol.HandleDel | main.py:289-294 | defines `handle_del`; its properties are `Programs.DeleteOnlyThat` and `Behaviour.DeleteThenLoad` |
| Protocol.HandleBookmark | main.py:78-86 | defines `handle_bookmark`; its properties are `Behaviour.ExecKeepsBookmarksMirrorFile` and `Behaviour.BookmarkThenGet` |
| Protocol.Exec | main.py:309-338 | defines one `handle_command`; its properties are `Behaviour.ExecFiles` and the other `Behaviour.Exec` lemmas |
| Protocol.Respond | main.py:347-348 | defines the sending of a response; its properties are `Behaviour.Unanswered` and `Behaviour.SentOnlyGrows` |
| Protocol.RunStep | main.py:342-348 | defines one iteration of `run`; its properties are `Behaviour.StepShape` and `Behaviour.CommandStep` |
| Protocol.Run | main.py:340-349 | defines a whole run; its properties are `Behaviour.HaltedStays` and the `Behaviour.Run…` lemmas |
| Engine.PicoJuice.constructor | main.py:40-69 | `__init__`: the fields are exactly the boot snapshot (handshake, banner, session, bookmarks) |
| Engine.PicoJuice.ReadLine | main.py:98-111 | the line read and the input left are `NextLine`'s; nothing else changes |
| Engine.PicoJuice.SendResponse | main.py:113-117 | the text is appended to what was sent; nothing else changes |
| Engine.PicoJuice.HandleHttp | main.py:210-229 | the new state and reply are `Protocol.HandleHttp`'s |
| Engine.PicoJuice.HandlePostStart | main.py:231-236 | the new state and reply are `Protocol.HandlePostStart`'s |
| Engine.PicoJuice.HandlePostEnd | main.py:238-251 | the new state and reply are `Protocol.HandlePostEnd`'s |
| Engine.PicoJuice.HandlePct | main.py:253-255 | the new state and reply are `Protocol.HandlePct`'s |
| Engine.PicoJuice.HandleSave | main.py:266-281 | the new state and reply are `Protocol.HandleSave`'s |
| Engine.PicoJuice.ReceiveProgram | main.py:268-281 | the loop ends exactly when the transfer completes, with its content and the lines it read; otherwise the firmware blocks with every complete line read |
| Engine.PicoJuice.HandleLoad | main.py:296-303 | the new state and reply are `Protocol.HandleLoad`'s |
| Engine.PicoJuice.SendStripped | main.py:299-300 | every line is sent stripped, in order; nothing else changes |
| Engine.PicoJuice.HandleDel | main.py:289-294 | the new state and reply are `Protocol.HandleDel`'s |
| Engine.PicoJuice.HandleBookmark | main.py:78-86 | the new state and reply are `Protocol.HandleBookmark`'s |
| Engine.PicoJuice.Execute | main.py:312-337 | running a table entry does what `Protocol.Exec` says |
| Engine.PicoJuice.Answer | main.py:313-334 | the entries that only answer leave every field as it was |
| Engine.PicoJuice.Update | main.py:323-333 | the entries that change state do what `Protocol.Exec` says |
| Engine.PicoJuice.HandleCommand | main.py:309-338 | `handle_command` does what `Protocol.Exec` of `Commands.Classify` says |
| Engine.PicoJuice.RunOnce | main.py:342-348 | one loop iteration does what `Protocol.RunStep` says |
| Engine.PicoJuice.Run | main.py:340-349 | the loop over a sequence of iterations does what `Protocol.Run` says |
| Engine.SaveBlocked | main.py:271-281 | out of complete lines before the second `OK`, the transfer is still open |
| Engine.SaveFinished | main.py:273-279 | the next line is the second `OK`: the content is the join of the lines collected so far |
| Engine.SaveStep | main.py:272-281 | any other line is read and, unless blank or `OK`, collected |

## Left out

- Hardware: the `Hardware` class, the LEDs, `time.sleep` and `print`
  (main.py:15-37, 42, 100-117). The serial input is one character sequence,
  and what goes out is the list of texts passed to `send_response`, without
  the `\r\n` it appends.
- `uart.any()` polling: a line is read once it is complete in the input. A
  stream that ends without another complete line stops the model in the
  `Blocked` status, the firmware's endless wait.
- The ASCII decode at main.py:104: the input is modelled as characters
  already decoded, so the decode failure that halts the firmware is not
  modelled.
- The radio handlers `handle_apl`, `handle_apc`, `handle_apd`, `handle_apr`,
  `handle_api`, `handle_aps`, `handle_apw`, and `wifi_connect`
  (main.py:159-208): their replies are the `Env.radio` input. The connection
  state is `Env.connected`, fixed for one iteration, and the MAC is `Env.mac`.
- The stored-credentials connection at boot (main.py:62-69): the message it
  sends, if any, is the constructor's `autoConnect` parameter.
- The help text (main.py:119-157): the `Env.help` input.
- The HTTP transfer, its response text and its exceptions (main.py:218-229):
  the request is recorded, and its reply is the `Env.http` input.
  `handle_udp` (main.py:257-264) is unreachable, and its reply is `Env.udp`.
- JSON: bookmarks.json is a map, or `None` when it cannot be read.
- File system errors other than a missing file are not modelled: writing
  always succeeds, and the files are a map from name to content.
- `os.stat` sizes are content lengths, since every character is one byte.
- The iteration orders of `os.listdir` and of a dictionary are inputs, so the
  model does not fix which order the DIR and BOOKMARKS listings use. `Exec`
  accepts any order function; the listing lemmas
  (`Behaviour.DirListsEachProgramOnce`, `Behaviour.BookmarksListsEachOnce`)
  assume one that holds every file and every key exactly once
  (`Protocol.OrdersEnumerate`), as `os.listdir` and `dict.items` do.
- wifi.json: a successful APC saves the credentials (main.py:199,
  206-208); with the radio handlers outside the model, this write is not
  modelled, and the file system of the model is the program store
  `Device.files` plus bookmarks.json.
- A directory named with `.IJB` is not distinguished from a file.
- `run`'s endless loop is `Run` over a finite sequence of environments, one
  per iteration.
- Bookmarks.Listing and Programs.DirListing: their contracts state only the
  empty case; the lines of a non-empty listing are stated by
  `Bookmarks.ListingLines` and `Programs.DirListingLines`, for keys, URLs and
  names without line feeds.
