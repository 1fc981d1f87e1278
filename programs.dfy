/**
 * The program store (main.py:266-303): SAVE receives lines between two `OK`
 * lines and writes them to `<name>.IJB`, DIR lists the `.IJB` files with
 * their sizes, DEL removes one, LOAD sends one back line by line. The file
 * system is a map from file names to contents.
 */
module Programs {
  import opened Options
  import opened Text
  import opened Framing

  const Extension := ".IJB"
  const ListPrompt := "LIST"
  const FileSaved := "'File saved"
  const NoPrograms := "'No .IJB files found"
  const FileDeleted := "'File deleted"
  const DeleteFailed := "'Error deleting file"
  const FileLoaded := "'File loaded"
  const LoadFailed := "'Error loading file"

  /** f"{filename}.IJB": the file a program name stands for. */
  function ProgramFile(name: string): (r: string)
    ensures EndsWith(r, Extension)
    ensures |r| == |name| + 4 && r[..|name|] == name
  {
    var r := name + Extension;
    assert r[|r| - 4..] == Extension;
    r
  }

  /** Different program names name different files. */
  lemma ProgramFileInjective(a: string, b: string)
    requires ProgramFile(a) == ProgramFile(b)
    ensures a == b
  {
    assert a == ProgramFile(a)[..|a|];
  }

  /** A line handle_save collects: not blank and not an `OK`. */
  predicate Collected(line: string) {
    line != "" && line != Ack
  }

  /** The lines handle_save collects from ls, in arrival order. */
  function Payload(ls: seq<string>): (r: seq<string>)
    ensures |r| <= |ls|
    ensures forall i :: 0 <= i < |r| ==> Collected(r[i]) && r[i] in ls
  {
    if ls == [] then []
    else
      var init := Payload(ls[..|ls| - 1]);
      assert forall l :: l in ls[..|ls| - 1] ==> l in ls;
      var last := ls[|ls| - 1];
      if Collected(last) then init + [last] else init
  }

  /** Collecting is done line by line: the lines of a + b are those of a, then those of b. */
  lemma {:induction false} PayloadAppend(a: seq<string>, b: seq<string>)
    ensures Payload(a + b) == Payload(a) + Payload(b)
    decreases |b|
  {
    if b != [] {
      var b' := b[..|b| - 1];
      assert (a + b)[..|a + b| - 1] == a + b';
      PayloadAppend(a, b');
    } else {
      assert a + b == a;
    }
  }

  /**
   * handle_save's transfer over the lines that arrive after `LIST`: when the
   * second `OK` is at index k, the file content is the `\n`-join of the
   * collected lines before it and k + 1 lines have been read; None while it
   * has not arrived.
   */
  function SaveTransfer(ls: seq<string>): (r: Option<(string, nat)>)
    ensures r.Some? ==> 0 < r.value.1 <= |ls| && ls[r.value.1 - 1] == Ack && Count(ls[..r.value.1 - 1], Ack) == 1
    ensures r.None? ==> Count(ls, Ack) <= 1
  {
    var k := Occurrence(ls, Ack, 1);
    if k.None? then None else Some((Join(Payload(ls[..k.value]), '\n'), k.value + 1))
  }

  /**
   * The stored text is exactly the collected lines between the start of the
   * transfer and the second `OK`, however many lines follow it.
   */
  lemma SaveContents(before: seq<string>, between: seq<string>, rest: seq<string>)
    requires Count(before, Ack) == 0 && Count(between, Ack) == 0
    ensures SaveTransfer(before + [Ack] + between + [Ack] + rest) ==
      Some((Join(Payload(before + between), '\n'), |before| + |between| + 2))
  {
    var ls := before + [Ack] + between + [Ack] + rest;
    var k := |before| + 1 + |between|;
    var head := before + [Ack] + between;
    SplitAt(head, Ack, rest);
    assert Count(head, Ack) == 1 by {
      CountSnoc(before, Ack, Ack);
      CountAppend(before + [Ack], between);
    }
    OccurrenceAt(ls, Ack, 1, k);
    PayloadSkipsAck(before, between);
  }

  lemma SplitAt<T>(a: seq<T>, x: T, c: seq<T>)
    ensures (a + [x] + c)[..|a|] == a && (a + [x] + c)[|a|] == x
  {
  }

  /** The `OK` that opens the transfer is not collected. */
  lemma PayloadSkipsAck(before: seq<string>, between: seq<string>)
    ensures Payload(before + [Ack] + between) == Payload(before + between)
  {
    PayloadAppend(before + [Ack], between);
    PayloadAppend(before, [Ack]);
    PayloadAppend(before, between);
    assert Payload([Ack]) == [] by {
      assert [Ack][..0] == [];
    }
  }

  lemma {:induction false} CountAppend(a: seq<string>, b: seq<string>)
    ensures Count(a + b, Ack) == Count(a, Ack) + Count(b, Ack)
    decreases |b|
  {
    if b == [] {
      assert a + b == a;
    } else {
      var b' := b[..|b| - 1];
      assert (a + b)[..|a + b| - 1] == a + b';
      CountAppend(a, b');
    }
  }

  /** The first `OK` is swallowed and the second ends the transfer. */
  lemma SaveTwo(a: string, b: string)
    requires Collected(a) && Collected(b)
    ensures SaveTransfer([Ack, a, b, Ack]) == Some((a + "\n" + b, 4))
  {
    CountOf2(a, b);
    SaveContents([], [a, b], []);
    FrameOf2(Ack, a, b);
    PayloadOf2(a, b);
    JoinOf2(a, b);
  }

  lemma SaveExample()
    ensures SaveTransfer(["OK", "A", "B", "OK"]) == Some(("A\nB", 4))
  {
    SaveTwo("A", "B");
    assert "A" + "\n" + "B" == "A\nB";
  }

  /** Nothing between the two `OK` lines stores an empty file. */
  lemma SaveNothing()
    ensures SaveTransfer(["OK", "OK"]) == Some(("", 2))
  {
    SaveContents([], [], []);
    FrameOf0(Ack);
  }

  /** Blank lines are dropped, and a line that arrives before the first `OK` is kept. */
  lemma SaveSkipsBlankKeepsEarly(x: string, a: string)
    requires Collected(x) && Collected(a)
    ensures SaveTransfer([x, Ack, "", a, Ack]) == Some((x + "\n" + a, 5))
  {
    CountOf2("", a);
    assert Count([x], Ack) == 0 by {
      assert [x][..0] == [];
    }
    SaveContents([x], ["", a], []);
    FrameOf3(x, Ack, "", a);
    PayloadOf3(x, "", a);
    JoinOf2(x, a);
  }

  lemma SaveSkipsBlankExample()
    ensures SaveTransfer(["X", "OK", "", "A", "OK"]) == Some(("X\nA", 5))
  {
    SaveSkipsBlankKeepsEarly("X", "A");
    assert "X" + "\n" + "A" == "X\nA";
  }

  lemma FrameOf2<T>(x: T, a: T, b: T)
    ensures [] + [x] + [a, b] + [x] + [] == [x, a, b, x] && [] + [a, b] == [a, b]
  {
  }

  lemma FrameOf3<T>(y: T, x: T, a: T, b: T)
    ensures [y] + [x] + [a, b] + [x] + [] == [y, x, a, b, x] && [y] + [a, b] == [y, a, b]
  {
  }

  lemma FrameOf0<T>(x: T)
    ensures [] + [x] + [] + [x] + [] == [x, x]
  {
  }

  lemma JoinOf2(a: string, b: string)
    ensures Join([a, b], '\n') == a + "\n" + b
  {
    assert [a, b][1..] == [b];
  }

  lemma CountOf2(a: string, b: string)
    requires a != Ack && b != Ack
    ensures Count([a, b], Ack) == 0
  {
    assert [a, b][..1] == [a];
    assert [a][..0] == [];
    assert Count([a], Ack) == 0;
  }

  lemma PayloadOf2(a: string, b: string)
    requires Collected(a) && Collected(b)
    ensures Payload([a, b]) == [a, b]
  {
    assert [a][..0] == [];
    assert Payload([a]) == [a];
    assert [a, b][..1] == [a];
  }

  lemma PayloadOf3(a: string, b: string, c: string)
    requires Collected(a) && !Collected(b) && Collected(c)
    ensures Payload([a, b, c]) == [a, c]
  {
    assert [a][..0] == [];
    assert Payload([a]) == [a];
    assert [a, b][..1] == [a];
    assert Payload([a, b]) == [a];
    assert [a, b, c][..2] == [a, b];
  }

  /**
   * The lines `for line in f` yields for a file: each piece between line
   * feeds, with its line feed kept, and no empty line after a final line feed.
   */
  function FileLines(content: string): (r: seq<string>)
    ensures content == [] ==> r == []
  {
    if content == [] then [] else PiecesAsLines(Split(content, '\n'))
  }

  /** Every piece but the last ends with a line feed; an empty last piece is no line. */
  function PiecesAsLines(pieces: seq<string>): (r: seq<string>)
    requires pieces != []
    ensures |r| == |pieces| || (|r| == |pieces| - 1 && pieces[|pieces| - 1] == [])
  {
    var last := pieces[|pieces| - 1];
    Terminated(pieces[..|pieces| - 1]) + (if last == [] then [] else [last])
  }

  function Terminated(pieces: seq<string>): (r: seq<string>)
    ensures |r| == |pieces|
    ensures forall i :: 0 <= i < |r| ==> r[i] == pieces[i] + "\n"
  {
    if pieces == [] then [] else [pieces[0] + "\n"] + Terminated(pieces[1..])
  }

  /** What handle_load sends for a file: every line, stripped. */
  function Replay(content: string): (r: seq<string>)
    ensures |r| == |FileLines(content)|
    ensures forall i :: 0 <= i < |r| ==> r[i] == Strip(FileLines(content)[i])
  {
    StripAll(FileLines(content))
  }

  function StripAll(ls: seq<string>): (r: seq<string>)
    ensures |r| == |ls|
    ensures forall i :: 0 <= i < |r| ==> r[i] == Strip(ls[i])
  {
    if ls == [] then [] else [Strip(ls[0])] + StripAll(ls[1..])
  }

  /** A stripped line keeps its text when its line feed is stripped off. */
  lemma StripTerminated(l: string)
    requires l != [] && IsStripped(l)
    ensures Strip(l + "\n") == l
  {
    var t := l + "\n";
    assert TrimStart(t) == t;
    assert t[..|t| - 1] == l;
    StripStripped(l);
  }

  /**
   * SAVE then LOAD: a program saved from lines that arrived over the serial
   * link (hence stripped and free of line feeds) is sent back as exactly the
   * collected lines.
   */
  lemma ReplaySaved(ls: seq<string>)
    requires forall i :: 0 <= i < |ls| ==> IsStripped(ls[i]) && '\n' !in ls[i]
    ensures Replay(Join(Payload(ls), '\n')) == Payload(ls)
  {
    if Payload(ls) != [] {
      PayloadClean(ls);
      ReplayJoin(Payload(ls));
    }
  }

  /** The collected lines of stripped, line-feed-free lines are nonempty, stripped and line-feed-free. */
  lemma PayloadClean(ls: seq<string>)
    requires forall i :: 0 <= i < |ls| ==> IsStripped(ls[i]) && '\n' !in ls[i]
    ensures forall i :: 0 <= i < |Payload(ls)| ==>
      '\n' !in Payload(ls)[i] && IsStripped(Payload(ls)[i]) && Payload(ls)[i] != []
  {
    var ps := Payload(ls);
    forall i | 0 <= i < |ps| ensures '\n' !in ps[i] && IsStripped(ps[i]) && ps[i] != [] {
      var j :| 0 <= j < |ls| && ls[j] == ps[i];
    }
  }

  lemma ReplayJoin(ps: seq<string>)
    requires ps != []
    requires forall i :: 0 <= i < |ps| ==> '\n' !in ps[i] && IsStripped(ps[i]) && ps[i] != []
    ensures Replay(Join(ps, '\n')) == ps
  {
    FileLinesJoin(ps);
    StripPieces(ps);
  }

  /** Stripping the lines of a joined text gives back its pieces. */
  lemma StripPieces(ps: seq<string>)
    requires ps != []
    requires forall i :: 0 <= i < |ps| ==> IsStripped(ps[i]) && ps[i] != []
    ensures StripAll(Terminated(ps[..|ps| - 1]) + [ps[|ps| - 1]]) == ps
  {
    var lines := Terminated(ps[..|ps| - 1]) + [ps[|ps| - 1]];
    var r := StripAll(lines);
    forall i | 0 <= i < |ps| ensures r[i] == ps[i] {
      ReplayLine(ps, lines, i);
    }
    Pointwise(r, ps);
  }

  lemma ReplayLine(ps: seq<string>, lines: seq<string>, i: nat)
    requires i < |ps| && IsStripped(ps[i]) && ps[i] != []
    requires lines == Terminated(ps[..|ps| - 1]) + [ps[|ps| - 1]]
    ensures Strip(lines[i]) == ps[i]
  {
    if i < |ps| - 1 {
      assert lines[i] == ps[i] + "\n";
      StripTerminated(ps[i]);
    } else {
      assert lines[i] == ps[i];
      StripStripped(ps[i]);
    }
  }

  lemma Pointwise<T>(a: seq<T>, b: seq<T>)
    requires |a| == |b| && forall i :: 0 <= i < |a| ==> a[i] == b[i]
    ensures a == b
  {
  }

  /** The lines of a joined text are its pieces, each but the last with its line feed. */
  lemma FileLinesJoin(ps: seq<string>)
    requires ps != []
    requires forall i :: 0 <= i < |ps| ==> '\n' !in ps[i] && ps[i] != []
    ensures FileLines(Join(ps, '\n')) == Terminated(ps[..|ps| - 1]) + [ps[|ps| - 1]]
  {
    SplitJoin(ps, '\n');
    JoinNonEmpty(ps);
  }

  lemma JoinNonEmpty(ps: seq<string>)
    requires ps != [] && ps[0] != []
    ensures Join(ps, '\n') != []
  {
  }

  /** The names os.listdir gives, in its order, that are `.IJB` files. */
  function ProgramNames(files: map<string, string>, names: seq<string>): (r: seq<string>)
    ensures forall i :: 0 <= i < |r| ==> r[i] in files && EndsWith(r[i], Extension) && r[i] in names
  {
    if names == [] then []
    else
      var rest := ProgramNames(files, names[1..]);
      if names[0] in files && EndsWith(names[0], Extension) then [names[0]] + rest else rest
  }

  /** One line of the DIR listing: the name and the size in bytes. */
  function DirEntry(name: string, size: nat): string {
    "'" + name + " " + NatToString(size)
  }

  function DirEntries(files: map<string, string>, ps: seq<string>): (r: seq<string>)
    requires forall i :: 0 <= i < |ps| ==> ps[i] in files
    ensures |r| == |ps|
    ensures forall i :: 0 <= i < |ps| ==> r[i] == DirEntry(ps[i], |files[ps[i]]|)
  {
    if ps == [] then []
    else
      var t := DirEntries(files, ps[1..]);
      var r := [DirEntry(ps[0], |files[ps[0]]|)] + t;
      assert forall i :: 1 <= i < |r| ==> r[i] == t[i - 1] && ps[i] == ps[1..][i - 1];
      r
  }

  /**
   * handle_dir: one line per `.IJB` file with its size, or a fixed text when
   * there is none. Every character is one byte, so the size is the length
   * of the content.
   */
  function DirListing(files: map<string, string>, names: seq<string>): (r: string)
    ensures ProgramNames(files, names) == [] ==> r == NoPrograms
  {
    var ps := ProgramNames(files, names);
    if ps == [] then NoPrograms else Join(DirEntries(files, ps), '\n')
  }

  /** Every saved program appears in a listing whose name order covers the directory. */
  lemma {:induction false} SavedProgramListed(files: map<string, string>, names: seq<string>, name: string)
    requires ProgramFile(name) in files && ProgramFile(name) in names
    ensures ProgramFile(name) in ProgramNames(files, names)
  {
    if names[0] != ProgramFile(name) {
      SavedProgramListed(files, names[1..], name);
    }
  }

  /** Files that are not programs are never listed. */
  lemma OthersNotListed(files: map<string, string>, names: seq<string>, other: string)
    requires !EndsWith(other, Extension)
    ensures other !in ProgramNames(files, names)
  {
  }

  /** A name is listed exactly when it is in the directory order, is a file and ends in `.IJB`. */
  lemma {:induction false} ProgramNamesExact(files: map<string, string>, names: seq<string>, f: string)
    ensures f in ProgramNames(files, names) <==> f in names && f in files && EndsWith(f, Extension)
  {
    if names != [] {
      ProgramNamesExact(files, names[1..], f);
      assert f in names <==> f == names[0] || f in names[1..];
    }
  }

  /** The `.IJB` files of the directory. */
  function ProgramSet(files: map<string, string>): (r: set<string>)
    ensures forall f :: f in r <==> f in files && EndsWith(f, Extension)
  {
    set f | f in files && EndsWith(f, Extension)
  }

  /** Filtering a directory order without repeats gives a listing without repeats. */
  lemma {:induction false} ProgramNamesDistinct(files: map<string, string>, names: seq<string>)
    requires forall i, j :: 0 <= i < j < |names| ==> names[i] != names[j]
    ensures forall i, j :: 0 <= i < j < |ProgramNames(files, names)| ==>
      ProgramNames(files, names)[i] != ProgramNames(files, names)[j]
  {
    if names != [] {
      var t := names[1..];
      assert forall i, j :: 0 <= i < j < |t| ==> t[i] != t[j] by {
        forall i, j | 0 <= i < j < |t| ensures t[i] != t[j] {
          assert t[i] == names[i + 1] && t[j] == names[j + 1];
        }
      }
      ProgramNamesDistinct(files, t);
      ProgramNamesExact(files, t, names[0]);
      assert names[0] !in t by {
        forall i | 0 <= i < |t| ensures t[i] != names[0] {
          assert t[i] == names[i + 1];
        }
      }
    }
  }

  /**
   * When the directory order holds every file exactly once, the listing
   * names every `.IJB` file exactly once.
   */
  lemma ProgramNamesEnumerate(files: map<string, string>, names: seq<string>)
    requires Enumerates(names, files.Keys)
    ensures Enumerates(ProgramNames(files, names), ProgramSet(files))
    ensures |ProgramNames(files, names)| == |ProgramSet(files)|
  {
    forall f ensures f in ProgramSet(files) <==> f in ProgramNames(files, names) {
      ProgramNamesExact(files, names, f);
    }
    ProgramNamesDistinct(files, names);
    EnumerationSize(ProgramNames(files, names), ProgramSet(files));
  }

  /**
   * When no listed name holds a line feed, the lines of a non-empty DIR
   * listing are one `'name size` entry per `.IJB` file, in directory order.
   */
  lemma DirListingLines(files: map<string, string>, names: seq<string>)
    requires ProgramNames(files, names) != []
    requires forall i :: 0 <= i < |names| ==> '\n' !in names[i]
    ensures Split(DirListing(files, names), '\n') == DirEntries(files, ProgramNames(files, names))
  {
    var ps := ProgramNames(files, names);
    var es := DirEntries(files, ps);
    forall i | 0 <= i < |es| ensures '\n' !in es[i] {
      var j :| 0 <= j < |names| && names[j] == ps[i];
      DigitsNoNewline(NatToString(|files[ps[i]]|));
      assert es[i] == "'" + ps[i] + " " + NatToString(|files[ps[i]]|);
    }
    SplitJoin(es, '\n');
  }

  /**
   * The DIR listing of a directory order that holds every file once: every
   * `.IJB` file is named exactly once; with none the fixed text is answered,
   * and otherwise, when no file name holds a line feed, its lines are one
   * entry per `.IJB` file.
   */
  lemma DirListingOfDirectory(files: map<string, string>, order: seq<string>)
    requires Enumerates(order, files.Keys)
    ensures Enumerates(ProgramNames(files, order), ProgramSet(files))
    ensures |ProgramNames(files, order)| == |ProgramSet(files)|
    ensures ProgramSet(files) == {} ==> DirListing(files, order) == NoPrograms
    ensures ProgramSet(files) != {} && (forall f :: f in files ==> '\n' !in f) ==>
      Split(DirListing(files, order), '\n') == DirEntries(files, ProgramNames(files, order))
  {
    ProgramNamesEnumerate(files, order);
    if ProgramSet(files) != {} && (forall f :: f in files ==> '\n' !in f) {
      DirectoryLines(files, order);
    }
  }

  lemma DirectoryLines(files: map<string, string>, order: seq<string>)
    requires Enumerates(order, files.Keys) && Enumerates(ProgramNames(files, order), ProgramSet(files))
    requires ProgramSet(files) != {} && forall f :: f in files ==> '\n' !in f
    ensures Split(DirListing(files, order), '\n') == DirEntries(files, ProgramNames(files, order))
  {
    var f :| f in ProgramSet(files);
    assert f in ProgramNames(files, order);
    assert forall i :: 0 <= i < |order| ==> '\n' !in order[i];
    DirListingLines(files, order);
  }

  lemma DigitsNoNewline(s: string)
    requires forall i :: 0 <= i < |s| ==> IsDigit(s[i])
    ensures '\n' !in s
  {
  }

  /** handle_del on the file map. */
  function Delete(files: map<string, string>, name: string): (r: (map<string, string>, string))
    ensures ProgramFile(name) in files ==> r.0 == files - {ProgramFile(name)} && r.1 == FileDeleted
    ensures ProgramFile(name) !in files ==> r.0 == files && r.1 == DeleteFailed
  {
    var f := ProgramFile(name);
    if f in files then (files - {f}, FileDeleted) else (files, DeleteFailed)
  }

  /** A deleted program is gone and no other file is touched. */
  lemma DeleteOnlyThat(files: map<string, string>, name: string, other: string)
    requires other != ProgramFile(name)
    ensures ProgramFile(name) !in Delete(files, name).0
    ensures other in Delete(files, name).0 <==> other in files
    ensures other in files ==> Delete(files, name).0[other] == files[other]
  {
  }
}
