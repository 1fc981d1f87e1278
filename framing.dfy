/**
 * Line framing on the serial link (main.py:98-111): characters are gathered
 * until a carriage return or a line feed arrives, and the gathered text is
 * stripped of surrounding whitespace. On top of it, the two line-level scans
 * of the firmware: the startup handshake that waits for an `OK` line
 * (main.py:44-47) and the command-marker check of the main loop
 * (main.py:344-345).
 */
module Framing {
  import opened Options
  import opened Text

  predicate IsLineEnd(c: char) {
    c == '\r' || c == '\n'
  }

  /** The number of characters before the first line end, or |s| when none has arrived. */
  function LineLength(s: seq<char>): (k: nat)
    ensures k <= |s|
    ensures k < |s| ==> IsLineEnd(s[k])
    ensures forall i :: 0 <= i < k ==> !IsLineEnd(s[i])
  {
    if s == [] then 0 else if IsLineEnd(s[0]) then 0 else 1 + LineLength(s[1..])
  }

  /**
   * What read_line returns from the front of the stream s, together with the
   * characters left after the terminator; None while no terminator has arrived
   * (read_line then keeps waiting).
   */
  function NextLine(s: seq<char>): (r: Option<(string, seq<char>)>)
    ensures r.Some? ==> |r.value.1| < |s|
  {
    var k := LineLength(s);
    if k < |s| then Some((Strip(s[..k]), s[k + 1..])) else None
  }

  /** A line is complete exactly when some terminator has arrived. */
  lemma NextLineComplete(s: seq<char>)
    ensures NextLine(s).None? <==> forall i :: 0 <= i < |s| ==> !IsLineEnd(s[i])
  {
  }

  /** A received line is stripped and holds no CR or LF. */
  lemma NextLineClean(s: seq<char>)
    requires NextLine(s).Some?
    ensures IsStripped(NextLine(s).value.0)
    ensures '\r' !in NextLine(s).value.0 && '\n' !in NextLine(s).value.0
  {
    var k := LineLength(s);
    StripContents(s[..k]);
    assert forall c :: c in s[..k] ==> !IsLineEnd(c);
  }

  /** A line is the stripped text before the first terminator, and the rest follows that terminator. */
  lemma NextLineAt(s: seq<char>, k: nat)
    requires k < |s| && IsLineEnd(s[k])
    requires forall i :: 0 <= i < k ==> !IsLineEnd(s[i])
    ensures NextLine(s) == Some((Strip(s[..k]), s[k + 1..]))
  {
  }

  /**
   * read_line as a splitter of the character stream: the loop gathers
   * characters into a buffer until a line end.
   */
  method ReadLine(input: seq<char>) returns (line: Option<string>, rest: seq<char>)
    ensures line.Some? ==> NextLine(input) == Some((line.value, rest))
    ensures line.None? ==> NextLine(input) == None && rest == input
  {
    var buffer: seq<char> := [];
    var i := 0;
    while i < |input|
      invariant 0 <= i <= |input|
      invariant buffer == input[..i]
      invariant forall j :: 0 <= j < i ==> !IsLineEnd(input[j])
    {
      var c := input[i];
      if IsLineEnd(c) {
        NextLineAt(input, i);
        return Some(Strip(buffer)), input[i + 1..];
      }
      buffer := buffer + [c];
      i := i + 1;
    }
    return None, input;
  }

  /** Every complete line in the stream s, in arrival order. */
  function Lines(s: seq<char>): seq<string>
    decreases |s|
  {
    var next := NextLine(s);
    if next.None? then [] else [next.value.0] + Lines(next.value.1)
  }

  /** The stream left after reading n lines (or all complete lines, when fewer are there). */
  function DropLines(s: seq<char>, n: nat): seq<char>
    decreases n
  {
    if n == 0 then s
    else
      var next := NextLine(s);
      if next.None? then s else DropLines(next.value.1, n - 1)
  }

  /** What is left of the stream s once every complete line has been read: a partial line. */
  function Residue(s: seq<char>): (r: seq<char>)
    ensures NextLine(r).None?
    decreases |s|
  {
    var next := NextLine(s);
    if next.None? then s else Residue(next.value.1)
  }

  /** Every received line is stripped and free of CR and LF. */
  lemma {:induction false} LinesWellFormed(s: seq<char>)
    ensures forall i :: 0 <= i < |Lines(s)| ==>
      IsStripped(Lines(s)[i]) && '\r' !in Lines(s)[i] && '\n' !in Lines(s)[i]
    decreases |s|
  {
    var next := NextLine(s);
    if next.Some? {
      NextLineClean(s);
      LinesWellFormed(next.value.1);
      assert Lines(s) == [next.value.0] + Lines(next.value.1);
    }
  }

  /** Reading one more line from the stream after n lines gives the stream after n + 1 lines. */
  lemma DropLinesStep(s: seq<char>, n: nat, line: string, rest: seq<char>)
    requires NextLine(DropLines(s, n)) == Some((line, rest))
    ensures DropLines(s, n + 1) == rest
  {
    DropSucc(s, n);
  }

  /** Dropping n + 1 lines is dropping n, then one more. */
  lemma {:induction false} DropSucc(s: seq<char>, n: nat)
    ensures DropLines(s, n + 1) == DropLines(DropLines(s, n), 1)
    decreases n
  {
    if n > 0 {
      var next := NextLine(s);
      if next.Some? {
        DropSucc(next.value.1, n - 1);
      }
    }
  }

  /** Dropping n lines leaves exactly the lines after the first n. */
  lemma {:induction false} LinesAfterDrop(s: seq<char>, n: nat)
    requires n <= |Lines(s)|
    ensures Lines(DropLines(s, n)) == Lines(s)[n..]
    decreases n
  {
    if n > 0 {
      var rest := DropStep(s, n);
      LinesAfterDrop(rest, n - 1);
    } else {
      assert DropLines(s, n) == s;
    }
  }

  /** Dropping n > 0 lines is dropping the first, then n - 1 more. */
  lemma DropStep(s: seq<char>, n: nat) returns (rest: seq<char>)
    requires 0 < n <= |Lines(s)|
    ensures n - 1 <= |Lines(rest)|
    ensures DropLines(s, n) == DropLines(rest, n - 1)
    ensures Lines(s)[n..] == Lines(rest)[n - 1..]
  {
    var next := NextLine(s);
    if next.None? {
      assert false;
    } else {
      rest := next.value.1;
      LinesStep(s, next.value.0, rest);
      SliceCons(next.value.0, Lines(rest), n);
    }
  }

  lemma SliceCons<T>(x: T, t: seq<T>, n: nat)
    requires 0 < n <= |t| + 1
    ensures ([x] + t)[n..] == t[n - 1..]
  {
  }

  /** The number of times x occurs in ls. */
  function Count(ls: seq<string>, x: string): nat {
    if ls == [] then 0 else Count(ls[..|ls| - 1], x) + (if ls[|ls| - 1] == x then 1 else 0)
  }

  lemma {:induction false} CountCons(a: string, t: seq<string>, x: string)
    ensures Count([a] + t, x) == (if a == x then 1 else 0) + Count(t, x)
    decreases |t|
  {
    if t != [] {
      assert ([a] + t)[..|t|] == [a] + t[..|t| - 1];
      CountCons(a, t[..|t| - 1], x);
    }
  }

  /**
   * The index of the (n+1)-th line equal to x, i.e. the one preceded by exactly
   * n earlier copies of x; None when x occurs at most n times.
   */
  function Occurrence(ls: seq<string>, x: string, n: nat): (r: Option<nat>)
    ensures r.Some? ==> r.value < |ls| && ls[r.value] == x && Count(ls[..r.value], x) == n
    ensures r.None? ==> Count(ls, x) <= n
  {
    if ls == [] then None
    else if ls[0] == x && n == 0 then Some(0)
    else
      var m := if ls[0] == x then n - 1 else n;
      CountCons(ls[0], ls[1..], x);
      assert [ls[0]] + ls[1..] == ls;
      match Occurrence(ls[1..], x, m)
      case None => None
      case Some(k) =>
        CountCons(ls[0], ls[1..][..k], x);
        assert [ls[0]] + ls[1..][..k] == ls[..k + 1];
        Some(k + 1)
  }

  /** A copy of x preceded by exactly n copies is the one Occurrence finds. */
  lemma {:induction false} OccurrenceAt(ls: seq<string>, x: string, n: nat, k: nat)
    requires k < |ls| && ls[k] == x && Count(ls[..k], x) == n
    ensures Occurrence(ls, x, n) == Some(k)
  {
    if k > 0 {
      CountCons(ls[0], ls[1..][..k - 1], x);
      assert [ls[0]] + ls[1..][..k - 1] == ls[..k];
      var m := if ls[0] == x then n - 1 else n;
      OccurrenceAt(ls[1..], x, m, k - 1);
    }
  }

  /** With at most n copies of x there is no (n+1)-th. */
  lemma {:induction false} OccurrenceAbsent(ls: seq<string>, x: string, n: nat)
    requires Count(ls, x) <= n
    ensures Occurrence(ls, x, n) == None
  {
    if ls != [] {
      CountCons(ls[0], ls[1..], x);
      assert [ls[0]] + ls[1..] == ls;
      var m := if ls[0] == x then n - 1 else n;
      OccurrenceAbsent(ls[1..], x, m);
    }
  }

  /** The handshake's acknowledgment line. */
  const Ack := "OK"

  /**
   * The startup handshake (main.py:44-47): lines are read and thrown away
   * until one equals `OK`. When the stream holds such a line, acked is true and
   * rest is the stream after it; otherwise the firmware goes on waiting.
   */
  method AwaitAck(input: seq<char>) returns (acked: bool, rest: seq<char>)
    ensures acked <==> Occurrence(Lines(input), Ack, 0).Some?
    ensures acked ==> rest == DropLines(input, Occurrence(Lines(input), Ack, 0).value + 1)
    ensures !acked ==> rest == Residue(input)
  {
    var cur := input;
    ghost var seen: seq<string> := [];
    while true
      invariant Lines(input) == seen + Lines(cur)
      invariant cur == DropLines(input, |seen|)
      invariant Residue(cur) == Residue(input)
      invariant Count(seen, Ack) == 0
      decreases |cur|
    {
      var line, after := ReadLine(cur);
      if line.None? {
        AckAbsent(input, seen, cur);
        return false, cur;
      }
      if line.value == Ack {
        AckHere(input, seen, cur, line.value, after);
        return true, after;
      }
      AckSkip(input, seen, cur, line.value, after);
      seen := seen + [line.value];
      cur := after;
    }
  }

  /** No complete line left and no acknowledgment seen: the stream holds none. */
  lemma AckAbsent(input: seq<char>, seen: seq<string>, cur: seq<char>)
    requires Lines(input) == seen + Lines(cur) && Count(seen, Ack) == 0
    requires NextLine(cur) == None
    ensures Occurrence(Lines(input), Ack, 0).None?
  {
    assert Lines(cur) == [];
    assert Lines(input) == seen;
    OccurrenceAbsent(Lines(input), Ack, 0);
  }

  /** The next line is the first acknowledgment. */
  lemma AckHere(input: seq<char>, seen: seq<string>, cur: seq<char>, line: string, after: seq<char>)
    requires Lines(input) == seen + Lines(cur) && cur == DropLines(input, |seen|)
    requires Count(seen, Ack) == 0
    requires NextLine(cur) == Some((line, after)) && line == Ack
    ensures Occurrence(Lines(input), Ack, 0) == Some(|seen|)
    ensures after == DropLines(input, |seen| + 1)
  {
    LinesStep(cur, line, after);
    AppendAssoc(seen, [line], Lines(after));
    DropLinesStep(input, |seen|, line, after);
    FirstAt(Lines(input), seen, Lines(after), Ack);
  }

  /** The next line is not the acknowledgment: it joins the lines already skipped. */
  lemma AckSkip(input: seq<char>, seen: seq<string>, cur: seq<char>, line: string, after: seq<char>)
    requires Lines(input) == seen + Lines(cur) && cur == DropLines(input, |seen|)
    requires Count(seen, Ack) == 0
    requires NextLine(cur) == Some((line, after)) && line != Ack
    ensures Lines(input) == (seen + [line]) + Lines(after)
    ensures after == DropLines(input, |seen + [line]|)
    ensures Count(seen + [line], Ack) == 0
  {
    LinesStep(cur, line, after);
    AppendAssoc(seen, [line], Lines(after));
    DropLinesStep(input, |seen|, line, after);
    CountSnoc(seen, line, Ack);
  }

  lemma AppendAssoc<T>(a: seq<T>, b: seq<T>, c: seq<T>)
    ensures a + (b + c) == (a + b) + c
  {
  }

  lemma LinesStep(s: seq<char>, line: string, rest: seq<char>)
    requires NextLine(s) == Some((line, rest))
    ensures Lines(s) == [line] + Lines(rest)
  {
  }

  lemma CountSnoc(ls: seq<string>, a: string, x: string)
    ensures Count(ls + [a], x) == Count(ls, x) + (if a == x then 1 else 0)
  {
    assert (ls + [a])[..|ls|] == ls;
  }

  /** In seen + [x] + tail with x absent from seen, the first x is at |seen|. */
  lemma FirstAt(all: seq<string>, seen: seq<string>, tail: seq<string>, x: string)
    requires all == seen + [x] + tail
    requires Count(seen, x) == 0
    ensures Occurrence(all, x, 0) == Some(|seen|)
  {
    assert all[..|seen|] == seen;
    OccurrenceAt(all, x, 0, |seen|);
  }

  /** Lines before the acknowledgment are all different from it. */
  lemma AwaitAckSkipsOthers(ls: seq<string>, k: nat)
    requires Occurrence(ls, Ack, 0) == Some(k)
    ensures forall i :: 0 <= i < k ==> ls[i] != Ack
  {
    forall i | 0 <= i < k ensures ls[i] != Ack {
      if ls[i] == Ack {
        CountPositive(ls[..k], i);
      }
    }
  }

  lemma {:induction false} CountPositive(ls: seq<string>, i: nat)
    requires i < |ls|
    ensures Count(ls, ls[i]) >= 1
    decreases |ls|
  {
    if i < |ls| - 1 {
      assert ls[..|ls| - 1][i] == ls[i];
      CountPositive(ls[..|ls| - 1], i);
    }
  }

  /** The command marker, matched without regard to case. */
  const Marker := "MJ"

  /**
   * The marker check of the main loop (main.py:344-345): a line is a command
   * only when its upper-cased form starts with `MJ`, and the command passed on
   * is the text after the marker.
   */
  function CommandBody(line: string): (r: Option<string>)
    ensures r.Some? <==> |line| >= 2 && line[0] in "Mm" && line[1] in "Jj"
    ensures r.Some? ==> r.value == line[2..] && line == line[..2] + r.value
  {
    var up := Upper(line);
    if line != "" && StartsWith(up, Marker) then
      FindPrefix(up, Marker);
      Some(line[Find(up, Marker) + 2..])
    else None
  }
}
