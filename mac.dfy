/**
 * get_mac_address (main.py:305-307): the radio's MAC address rendered as a
 * quote followed by two lower-case hexadecimal digits per byte.
 */
module Mac {
  import opened Options

  type Byte = b: int | 0 <= b < 256

  /** A lower-case hexadecimal digit. */
  predicate IsHexDigit(c: char) {
    '0' <= c <= '9' || 'a' <= c <= 'f'
  }

  function HexDigit(d: nat): (c: char)
    requires d < 16
    ensures IsHexDigit(c)
  {
    if d < 10 then ('0' as int + d) as char else ('a' as int + d - 10) as char
  }

  /** The value of a lower-case hexadecimal digit, None for any other character. */
  function DigitValue(c: char): (r: Option<nat>)
    ensures r.Some? ==> r.value < 16 && HexDigit(r.value) == c
    ensures r.None? ==> !IsHexDigit(c)
  {
    if '0' <= c <= '9' then Some(c as int - '0' as int)
    else if 'a' <= c <= 'f' then Some(c as int - 'a' as int + 10)
    else None
  }

  lemma DigitValueOf(d: nat)
    requires d < 16
    ensures DigitValue(HexDigit(d)) == Some(d)
  {
  }

  /** f'{b:02x}': the two lower-case hexadecimal digits of one byte. */
  function Pair(b: Byte): (r: string)
    ensures |r| == 2 && IsHexDigit(r[0]) && IsHexDigit(r[1])
  {
    [HexDigit(b / 16), HexDigit(b % 16)]
  }

  /** The digit pairs of every byte, concatenated. */
  function Hex(bs: seq<Byte>): (r: string)
    ensures |r| == 2 * |bs|
    ensures forall i :: 0 <= i < |r| ==> IsHexDigit(r[i])
  {
    if bs == [] then ""
    else
      var t := Hex(bs[1..]);
      var r := Pair(bs[0]) + t;
      assert forall i :: 2 <= i < |r| ==> r[i] == t[i - 2];
      r
  }

  /** The MAC response: a quote, then the hexadecimal rendering. */
  function RenderMac(mac: seq<Byte>): (r: string)
    ensures |r| == 1 + 2 * |mac|
    ensures r[0] == '\''
    ensures forall i :: 1 <= i < |r| ==> IsHexDigit(r[i])
  {
    var h := Hex(mac);
    var r := "'" + h;
    assert forall i :: 1 <= i < |r| ==> r[i] == h[i - 1];
    r
  }

  /** Reading hexadecimal digit pairs back into bytes. */
  function ParseHex(s: string): (r: Option<seq<Byte>>)
    ensures r.Some? ==> |s| == 2 * |r.value|
    decreases |s|
  {
    if s == [] then Some([])
    else if |s| == 1 then None
    else
      var high := DigitValue(s[0]);
      var low := DigitValue(s[1]);
      var rest := ParseHex(s[2..]);
      if high.None? || low.None? || rest.None? then None
      else Some([high.value * 16 + low.value] + rest.value)
  }

  /** Reading a MAC response back into the address. */
  function ParseMac(s: string): Option<seq<Byte>> {
    if s != [] && s[0] == '\'' then ParseHex(s[1..]) else None
  }

  /** The rendering is lossless: reading it back gives the address. */
  lemma {:induction false} ParseHexRoundTrip(bs: seq<Byte>)
    ensures ParseHex(Hex(bs)) == Some(bs)
  {
    if bs != [] {
      var b := bs[0];
      assert Hex(bs) == Pair(b) + Hex(bs[1..]);
      ParseHexRoundTrip(bs[1..]);
      ByteDigits(b);
      ParseDigits(b / 16, b % 16, Hex(bs[1..]));
      assert [b] + bs[1..] == bs;
    }
  }

  /** Reading two digits in front of more text. */
  lemma ParseDigits(high: nat, low: nat, t: string)
    requires high < 16 && low < 16
    ensures ParseHex([HexDigit(high), HexDigit(low)] + t) ==
      if ParseHex(t).Some? then Some([high * 16 + low] + ParseHex(t).value) else None
  {
    var s := [HexDigit(high), HexDigit(low)] + t;
    DigitValueOf(high);
    DigitValueOf(low);
    assert s[0] == HexDigit(high) && s[1] == HexDigit(low);
    assert s[2..] == t;
    assert high * 16 + low < 256;
  }

  lemma ByteDigits(b: Byte)
    ensures b / 16 * 16 + b % 16 == b && b / 16 < 16
  {
  }

  lemma ParseMacRoundTrip(mac: seq<Byte>)
    ensures ParseMac(RenderMac(mac)) == Some(mac)
  {
    ParseHexRoundTrip(mac);
    assert RenderMac(mac)[1..] == Hex(mac);
  }

  /** Different addresses give different responses. */
  lemma RenderMacInjective(a: seq<Byte>, b: seq<Byte>)
    requires RenderMac(a) == RenderMac(b)
    ensures a == b
  {
    ParseMacRoundTrip(a);
    ParseMacRoundTrip(b);
  }

  /** A worked example: DE:AD:BE:EF:00:01. */
  lemma RenderMacExample()
    ensures RenderMac([0xDE, 0xAD, 0xBE, 0xEF, 0x00, 0x01]) == "'deadbeef0001"
  {
    HexCons(0xDE, [0xAD, 0xBE, 0xEF, 0x00, 0x01]);
    HexCons(0xAD, [0xBE, 0xEF, 0x00, 0x01]);
    HexCons(0xBE, [0xEF, 0x00, 0x01]);
    HexCons(0xEF, [0x00, 0x01]);
    HexCons(0x00, [0x01]);
    HexCons(0x01, []);
    PairExamples();
  }

  lemma HexCons(b: Byte, rest: seq<Byte>)
    ensures Hex([b] + rest) == Pair(b) + Hex(rest)
  {
    assert ([b] + rest)[1..] == rest;
  }

  lemma PairExamples()
    ensures Pair(0xDE) == "de" && Pair(0xAD) == "ad" && Pair(0xBE) == "be"
    ensures Pair(0xEF) == "ef" && Pair(0x00) == "00" && Pair(0x01) == "01"
  {
  }
}
