/** The small Option type used throughout the model. */
module Options {
  datatype Option<+T> = None | Some(value: T)
}

/**
 * String helpers with the meaning the firmware's MicroPython string methods
 * give them on ASCII text: strip, upper, startswith/endswith, str.join with
 * a one-character separator, str.split on one character, and the decimal rendering of
 * a number.
 */
module Text {

  /** ASCII whitespace as MicroPython's str.strip() and str.split() see it. */
  predicate IsSpace(c: char) {
    c == ' ' || '\t' <= c <= '\r'
  }

  predicate NoSpace(s: string) {
    forall i :: 0 <= i < |s| ==> !IsSpace(s[i])
  }

  /** Neither the first nor the last character is whitespace. */
  predicate IsStripped(s: string) {
    s == [] || (!IsSpace(s[0]) && !IsSpace(s[|s| - 1]))
  }

  /** Text made only of whitespace (the empty text included). */
  predicate AllSpace(s: string) {
    forall i :: 0 <= i < |s| ==> IsSpace(s[i])
  }

  /** s with its leading whitespace removed: every character removed is whitespace. */
  function TrimStart(s: string): (r: string)
    ensures |r| <= |s|
    ensures r == [] || !IsSpace(r[0])
    ensures r != [] ==> r[|r| - 1] == s[|s| - 1]
    ensures forall i :: 0 <= i < |s| - |r| ==> IsSpace(s[i])
  {
    if s != [] && IsSpace(s[0]) then
      var r := TrimStart(s[1..]);
      assert forall i :: 1 <= i < |s| - |r| ==> s[i] == s[1..][i - 1];
      r
    else s
  }

  /** s with its trailing whitespace removed: every character removed is whitespace. */
  function TrimEnd(s: string): (r: string)
    ensures |r| <= |s|
    ensures r == [] || !IsSpace(r[|r| - 1])
    ensures r != [] ==> r[0] == s[0]
    ensures forall i :: |r| <= i < |s| ==> IsSpace(s[i])
  {
    if s != [] && IsSpace(s[|s| - 1]) then
      var r := TrimEnd(s[..|s| - 1]);
      assert forall i :: |r| <= i < |s| - 1 ==> s[i] == s[..|s| - 1][i];
      r
    else s
  }

  /** str.strip(): the text between the leading and the trailing whitespace. */
  function Strip(s: string): (r: string)
    ensures IsStripped(r)
    ensures |r| <= |s|
  {
    TrimEnd(TrimStart(s))
  }

  /** Text made only of whitespace trims to nothing. */
  lemma {:induction false} TrimStartAllSpace(s: string)
    requires AllSpace(s)
    ensures TrimStart(s) == [] && Strip(s) == []
    decreases |s|
  {
    if s != [] {
      assert IsSpace(s[0]);
      TrimStartAllSpace(s[1..]);
    }
  }

  /** Stripping only removes characters. */
  lemma StripContents(s: string)
    ensures forall c :: c in Strip(s) ==> c in s
  {
    var t := TrimStart(s);
    TrimStartSuffix(s);
    TrimEndPrefix(t);
    assert forall c :: c in Strip(s) ==> c in t;
  }

  lemma {:induction false} TrimStartSuffix(s: string)
    ensures TrimStart(s) == s[|s| - |TrimStart(s)|..]
    decreases |s|
  {
    if s != [] && IsSpace(s[0]) {
      TrimStartSuffix(s[1..]);
    }
  }

  lemma {:induction false} TrimEndPrefix(s: string)
    ensures TrimEnd(s) == s[..|TrimEnd(s)|]
    decreases |s|
  {
    if s != [] && IsSpace(s[|s| - 1]) {
      TrimEndPrefix(s[..|s| - 1]);
    }
  }

  /**
   * str.strip() cuts s into three: leading whitespace, the result, and
   * trailing whitespace.
   */
  lemma StripLayout(s: string) returns (lead: string, trail: string)
    ensures AllSpace(lead) && AllSpace(trail)
    ensures s == lead + Strip(s) + trail
  {
    var t := TrimStart(s);
    lead := TrimStartLayout(s);
    trail := TrimEndLayout(t);
    Regroup(lead, Strip(s), trail);
  }

  lemma Regroup<T>(a: seq<T>, b: seq<T>, c: seq<T>)
    ensures a + (b + c) == a + b + c
  {
  }

  /** What TrimStart removes is a whitespace prefix. */
  lemma TrimStartLayout(s: string) returns (lead: string)
    ensures AllSpace(lead) && s == lead + TrimStart(s)
  {
    TrimStartSuffix(s);
    lead := s[..|s| - |TrimStart(s)|];
    assert forall i :: 0 <= i < |lead| ==> lead[i] == s[i];
  }

  /** What TrimEnd removes is a whitespace suffix. */
  lemma TrimEndLayout(s: string) returns (trail: string)
    ensures AllSpace(trail) && s == TrimEnd(s) + trail
  {
    TrimEndPrefix(s);
    trail := s[|TrimEnd(s)|..];
    assert forall i :: 0 <= i < |trail| ==> trail[i] == s[|TrimEnd(s)| + i];
  }

  /** Whitespace in front of text that starts with no whitespace is trimmed off, and only that. */
  lemma {:induction false} TrimStartSpaces(w: string, t: string)
    requires AllSpace(w) && (t == [] || !IsSpace(t[0]))
    ensures TrimStart(w + t) == t
    decreases |w|
  {
    if w != [] {
      assert (w + t)[0] == w[0] && (w + t)[1..] == w[1..] + t;
      TrimStartSpaces(w[1..], t);
    } else {
      assert w + t == t;
    }
  }

  /** Whitespace after text that ends with no whitespace is trimmed off, and only that. */
  lemma {:induction false} TrimEndSpaces(t: string, w: string)
    requires AllSpace(w) && (t == [] || !IsSpace(t[|t| - 1]))
    ensures TrimEnd(t + w) == t
    decreases |w|
  {
    if w != [] {
      var v := w[..|w| - 1];
      assert (t + w)[|t + w| - 1] == w[|w| - 1] && (t + w)[..|t + w| - 1] == t + v;
      TrimEndSpaces(t, v);
    } else {
      assert t + w == t;
    }
  }

  /** Stripping whitespace-wrapped stripped text gives that text. */
  lemma StripAround(w1: string, t: string, w2: string)
    requires AllSpace(w1) && AllSpace(w2) && t != [] && IsStripped(t)
    ensures Strip(w1 + t + w2) == t
  {
    assert w1 + t + w2 == w1 + (t + w2);
    assert (t + w2)[0] == t[0];
    TrimStartSpaces(w1, t + w2);
    TrimEndSpaces(t, w2);
  }

  /** Stripping text that is already stripped changes nothing. */
  lemma StripStripped(s: string)
    requires IsStripped(s)
    ensures Strip(s) == s
  {
  }

  function UpperChar(c: char): char {
    if 'a' <= c <= 'z' then (c as int - 32) as char else c
  }

  /** str.upper() on ASCII text: only a-z change. */
  function Upper(s: string): (r: string)
    ensures |r| == |s|
    ensures forall i :: 0 <= i < |s| ==> r[i] == UpperChar(s[i])
  {
    seq(|s|, i requires 0 <= i < |s| => UpperChar(s[i]))
  }

  predicate StartsWith(s: string, prefix: string) {
    |prefix| <= |s| && s[..|prefix|] == prefix
  }

  predicate EndsWith(s: string, suffix: string) {
    |suffix| <= |s| && s[|s| - |suffix|..] == suffix
  }

  /** pat occurs in s starting at index i. */
  predicate OccursAt(s: string, pat: string, i: nat) {
    i + |pat| <= |s| && s[i..i + |pat|] == pat
  }

  /**
   * str.find(pat): the index of the first occurrence of pat in s, or -1 when
   * pat does not occur.
   */
  function Find(s: string, pat: string): (r: int)
    ensures r >= -1
    ensures r >= 0 ==> OccursAt(s, pat, r)
    ensures forall i: nat :: (r == -1 || i < r) ==> !OccursAt(s, pat, i)
    decreases |s|
  {
    if |s| < |pat| then -1
    else if s[..|pat|] == pat then 0
    else
      var r := Find(s[1..], pat);
      assert forall i: nat :: OccursAt(s[1..], pat, i) <==> OccursAt(s, pat, i + 1) by {
        forall i: nat ensures OccursAt(s[1..], pat, i) <==> OccursAt(s, pat, i + 1) {
          if i + 1 + |pat| <= |s| {
            assert s[1..][i..i + |pat|] == s[i + 1..i + 1 + |pat|];
          }
        }
      }
      assert !OccursAt(s, pat, 0);
      assert forall i: nat :: 0 < i && (r == -1 || i < r + 1) ==> !OccursAt(s, pat, i) by {
        forall i: nat | 0 < i && (r == -1 || i < r + 1) ensures !OccursAt(s, pat, i) {
          assert !OccursAt(s[1..], pat, i - 1);
        }
      }
      if r == -1 then -1 else r + 1
  }

  /** A text that starts with pat finds it at index 0. */
  lemma FindPrefix(s: string, pat: string)
    requires StartsWith(s, pat)
    ensures Find(s, pat) == 0
  {
  }

  /** sep.join(xs) for a one-character separator. */
  function Join(xs: seq<string>, sep: char): string {
    if xs == [] then ""
    else if |xs| == 1 then xs[0]
    else xs[0] + [sep] + Join(xs[1..], sep)
  }

  /** The index of the first occurrence of c in s, or |s| when there is none. */
  function IndexOf(s: string, c: char): (k: nat)
    ensures k <= |s|
    ensures k < |s| ==> s[k] == c
    ensures forall i :: 0 <= i < k ==> s[i] != c
  {
    if s == [] then 0 else if s[0] == c then 0 else 1 + IndexOf(s[1..], c)
  }

  /** s.split(c): the pieces between the occurrences of c, always at least one. */
  function Split(s: string, c: char): (r: seq<string>)
    ensures |r| >= 1
    ensures forall i :: 0 <= i < |r| ==> c !in r[i]
    decreases |s|
  {
    var k := IndexOf(s, c);
    if k == |s| then [s] else [s[..k]] + Split(s[k + 1..], c)
  }

  /** Splitting on the separator undoes joining, for pieces free of it. */
  lemma {:induction false} SplitJoin(xs: seq<string>, c: char)
    requires xs != []
    requires forall i :: 0 <= i < |xs| ==> c !in xs[i]
    ensures Split(Join(xs, c), c) == xs
  {
    if |xs| > 1 {
      var rest := Join(xs[1..], c);
      SplitAtSeparator(xs[0], c, rest);
      SplitJoin(xs[1..], c);
      ConsTail(xs);
    } else {
      assert c !in xs[0];
    }
  }

  /** Text free of c, then c, then more: the split takes the first piece off. */
  lemma SplitAtSeparator(a: string, c: char, rest: string)
    requires c !in a
    ensures Split(a + [c] + rest, c) == [a] + Split(rest, c)
  {
    var s := a + [c] + rest;
    assert IndexOf(s, c) == |a| by {
      assert s[|a|] == c;
      forall i | 0 <= i < |a| ensures s[i] != c {
        assert s[i] == a[i];
      }
    }
    assert s[..|a|] == a;
    assert s[|a| + 1..] == rest;
  }

  lemma ConsTail<T>(xs: seq<T>)
    requires xs != []
    ensures [xs[0]] + xs[1..] == xs && ([xs[0]] + xs[1..])[1..] == xs[1..]
  {
  }

  /** Joining the pieces of a split gives the text back. */
  lemma {:induction false} JoinSplit(s: string, c: char)
    ensures Join(Split(s, c), c) == s
    decreases |s|
  {
    var k := IndexOf(s, c);
    if k < |s| {
      JoinSplit(s[k + 1..], c);
      var tail := Split(s[k + 1..], c);
      JoinCons(s[..k], tail, c);
      Around(s, k);
    }
  }

  lemma Around<T>(s: seq<T>, k: nat)
    requires k < |s|
    ensures s == s[..k] + [s[k]] + s[k + 1..]
  {
  }

  lemma JoinCons(x: string, tail: seq<string>, c: char)
    requires tail != []
    ensures Join([x] + tail, c) == x + [c] + Join(tail, c)
  {
    ConsTail([x] + tail);
  }

  function DigitChar(d: nat): char
    requires d < 10
  {
    "0123456789"[d]
  }

  predicate IsDigit(c: char) {
    '0' <= c <= '9'
  }

  /** str(n): the decimal digits of n, without leading zeros. */
  function NatToString(n: nat): (r: string)
    ensures r != []
    ensures forall i :: 0 <= i < |r| ==> IsDigit(r[i])
    ensures |r| == 1 || r[0] != '0'
    decreases n
  {
    if n < 10 then [DigitChar(n)] else NatToString(n / 10) + [DigitChar(n % 10)]
  }

  /** The number a string of decimal digits denotes. */
  function DecimalValue(s: string): nat
    requires forall i :: 0 <= i < |s| ==> IsDigit(s[i])
  {
    if s == [] then 0
    else
      assert IsDigit(s[|s| - 1]);
      DecimalValue(s[..|s| - 1]) * 10 + (s[|s| - 1] as int - '0' as int)
  }

  /** Reading back the rendering of n gives n. */
  lemma {:induction false} DecimalRoundTrip(n: nat)
    ensures DecimalValue(NatToString(n)) == n
    decreases n
  {
    var r := NatToString(n);
    if n >= 10 {
      DecimalRoundTrip(n / 10);
      assert r[..|r| - 1] == NatToString(n / 10);
    }
  }

  /** order holds each element of keys exactly once: an iteration order of a set or of the keys of a map. */
  ghost predicate Enumerates<T>(order: seq<T>, keys: set<T>) {
    && (forall k :: k in keys ==> k in order)
    && (forall i :: 0 <= i < |order| ==> order[i] in keys)
    && (forall i, j :: 0 <= i < j < |order| ==> order[i] != order[j])
  }

  /** A sequence without repeats has as many elements as its set. */
  lemma {:induction false} DistinctCard<T>(s: seq<T>)
    requires forall i, j :: 0 <= i < j < |s| ==> s[i] != s[j]
    ensures |set x | x in s| == |s|
  {
    if s != [] {
      var t := s[1..];
      assert forall i, j :: 0 <= i < j < |t| ==> t[i] != t[j] by {
        forall i, j | 0 <= i < j < |t| ensures t[i] != t[j] {
          assert t[i] == s[i + 1] && t[j] == s[j + 1];
        }
      }
      DistinctCard(t);
      assert s[0] !in t by {
        forall i | 0 <= i < |t| ensures t[i] != s[0] {
          assert t[i] == s[i + 1];
        }
      }
      assert (set x | x in s) == (set x | x in t) + {s[0]} by {
        assert s == [s[0]] + t;
      }
    }
  }

  /** An enumeration is as long as the set it enumerates. */
  lemma EnumerationSize<T>(order: seq<T>, keys: set<T>)
    requires Enumerates(order, keys)
    ensures |order| == |keys|
  {
    DistinctCard(order);
    assert (set x | x in order) == keys;
  }
}
