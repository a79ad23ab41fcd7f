/**
 * The standard, padded Base64 encoding of section 4 of RFC 4648 (Go's
 * `base64.StdEncoding`), with a decoder used to state what an encoded
 * string holds.
 */
module Base64 {
  import opened Wrappers
  import opened Bytes

  const Pad: char := '='

  /** The alphabet character for a 6-bit value. */
  function Symbol(v: int): (c: char)
    requires 0 <= v < 64
    ensures c != Pad
  {
    if v < 26 then ('A' as int + v) as char
    else if v < 52 then ('a' as int + (v - 26)) as char
    else if v < 62 then ('0' as int + (v - 52)) as char
    else if v == 62 then '+'
    else '/'
  }

  /** The 6-bit value of an alphabet character; `None` for the pad and for anything else. */
  function Value(c: char): (r: Option<int>)
    ensures r.Some? ==> 0 <= r.value < 64 && Symbol(r.value) == c
  {
    if 'A' <= c <= 'Z' then Some(c as int - 'A' as int)
    else if 'a' <= c <= 'z' then Some(c as int - 'a' as int + 26)
    else if '0' <= c <= '9' then Some(c as int - '0' as int + 52)
    else if c == '+' then Some(62)
    else if c == '/' then Some(63)
    else None
  }

  /** Encodes a group of one to three bytes as four characters, padding with '='. */
  function EncodeGroup(g: seq<byte>): (r: string)
    requires 1 <= |g| <= 3
    ensures |r| == 4
    ensures r[0] != Pad && r[1] != Pad && (r[2] == Pad <==> |g| == 1) && (r[3] == Pad <==> |g| < 3)
  {
    var b0 := g[0] as int;
    var b1 := if |g| > 1 then g[1] as int else 0;
    var b2 := if |g| > 2 then g[2] as int else 0;
    [Symbol(b0 / 4),
     Symbol(b0 % 4 * 16 + b1 / 16),
     if |g| > 1 then Symbol(b1 % 16 * 4 + b2 / 64) else Pad,
     if |g| > 2 then Symbol(b2 % 64) else Pad]
  }

  function Encode(s: seq<byte>): (r: string)
    ensures |r| % 4 == 0 && (|r| == 0 <==> |s| == 0)
    ensures forall i :: 0 <= i < |r| - 4 ==> r[i] != Pad
    decreases |s|
  {
    if |s| == 0 then ""
    else if |s| <= 3 then EncodeGroup(s)
    else EncodeGroup(s[..3]) + Encode(s[3..])
  }

  /** Decodes four characters; padding is accepted only in the final group. */
  function DecodeGroup(t: string, last: bool): Option<seq<byte>>
    requires |t| == 4
  {
    var v0, v1, v2, v3 := Value(t[0]), Value(t[1]), Value(t[2]), Value(t[3]);
    if v0.None? || v1.None? then None
    else
      var b0 := (v0.value * 4 + v1.value / 16) as byte;
      if v2.None? then
        if last && t[2] == Pad && t[3] == Pad then Some([b0]) else None
      else
        var b1 := (v1.value % 16 * 16 + v2.value / 4) as byte;
        if v3.None? then
          if last && t[3] == Pad then Some([b0, b1]) else None
        else
          Some([b0, b1, (v2.value % 4 * 64 + v3.value) as byte])
  }

  function Decode(t: string): Option<seq<byte>>
    decreases |t|
  {
    if |t| == 0 then Some([])
    else if |t| < 4 then None
    else if |t| == 4 then DecodeGroup(t, true)
    else
      match DecodeGroup(t[..4], false)
      case None => None
      case Some(g) =>
        match Decode(t[4..])
        case None => None
        case Some(rest) => Some(g + rest)
  }

  /** Every three input bytes, and a final partial group, become four characters. */
  lemma {:induction false} EncodeLength(s: seq<byte>)
    ensures |Encode(s)| == 4 * ((|s| + 2) / 3)
  {
    var n := |s|;
    if n > 3 {
      EncodeLength(s[3..]);
      assert (n - 3 + 2) / 3 + 1 == (n + 2) / 3;
    } else if n > 0 {
      assert (n + 2) / 3 == 1;
    }
  }

  /** The alphabet character of a value decodes to that value. */
  lemma SymbolValue(v: int)
    requires 0 <= v < 64
    ensures Value(Symbol(v)) == Some(v)
  {
  }

  /** Regrouping three bytes into four 6-bit values and back gives the bytes again. */
  lemma Regroup(b0: int, b1: int, b2: int)
    requires 0 <= b0 < 256 && 0 <= b1 < 256 && 0 <= b2 < 256
    ensures b0 / 4 * 4 + (b0 % 4 * 16 + b1 / 16) / 16 == b0
    ensures (b0 % 4 * 16 + b1 / 16) % 16 * 16 + (b1 % 16 * 4 + b2 / 64) / 4 == b1
    ensures (b1 % 16 * 4 + b2 / 64) % 4 * 64 + b2 % 64 == b2
  {
  }

  lemma DecodeEncodeGroup(g: seq<byte>, last: bool)
    requires 1 <= |g| <= 3
    requires |g| < 3 ==> last
    ensures DecodeGroup(EncodeGroup(g), last) == Some(g)
  {
    var t := EncodeGroup(g);
    var b0 := g[0] as int;
    var b1 := if |g| > 1 then g[1] as int else 0;
    var b2 := if |g| > 2 then g[2] as int else 0;
    Regroup(b0, b1, b2);
    SymbolValue(b0 / 4);
    SymbolValue(b0 % 4 * 16 + b1 / 16);
    if |g| > 1 {
      SymbolValue(b1 % 16 * 4 + b2 / 64);
      if |g| > 2 {
        SymbolValue(b2 % 64);
        assert g == [g[0], g[1], g[2]];
      } else {
        assert Value(Pad).None?;
        assert g == [g[0], g[1]];
      }
    } else {
      assert Value(Pad).None?;
      assert g == [g[0]];
    }
  }

  /** Decoding undoes encoding. */
  lemma {:induction false} DecodeEncode(s: seq<byte>)
    ensures Decode(Encode(s)) == Some(s)
  {
    if |s| > 3 {
      var t := Encode(s);
      DecodeEncodeGroup(s[..3], false);
      DecodeEncode(s[3..]);
      EncodeLength(s[3..]);
      assert t[..4] == EncodeGroup(s[..3]);
      assert t[4..] == Encode(s[3..]);
      assert s[..3] + s[3..] == s;
    } else if |s| > 0 {
      DecodeEncodeGroup(s, true);
    }
  }

  /** Distinct byte strings have distinct encodings. */
  lemma EncodeInjective(s1: seq<byte>, s2: seq<byte>)
    requires Encode(s1) == Encode(s2)
    ensures s1 == s2
  {
    DecodeEncode(s1);
    DecodeEncode(s2);
  }
}
