/**
 * Base 64 encoding with the standard alphabet and `=` padding, as defined in
 * section 4 of RFC 4648 (what Python's `base64.b64encode` produces), and a
 * decoder for it.
 */
module Base64 {
  import opened Wrappers

  type byte = x: int | 0 <= x < 256
  type sextet = x: int | 0 <= x < 64

  /** The character for a 6-bit value: `A`-`Z`, `a`-`z`, `0`-`9`, `+`, `/` (RFC 4648, Table 1). */
  function EncodeSextet(v: sextet): (c: char)
    ensures DecodeChar(c) == Some(v)
    ensures c != '='
  {
    if v < 26 then ('A' as int + v) as char
    else if v < 52 then ('a' as int + (v - 26)) as char
    else if v < 62 then ('0' as int + (v - 52)) as char
    else if v == 62 then '+'
    else '/'
  }

  /** The 6-bit value of an alphabet character; `None` for anything else, `=` included. */
  function DecodeChar(c: char): Option<sextet> {
    if 'A' <= c <= 'Z' then Some(c as int - 'A' as int)
    else if 'a' <= c <= 'z' then Some(c as int - 'a' as int + 26)
    else if '0' <= c <= '9' then Some(c as int - '0' as int + 52)
    else if c == '+' then Some(62)
    else if c == '/' then Some(63)
    else None
  }

  /** One quantum of one to three bytes as four characters, padded with `=`. */
  function EncodeQuantum(b: seq<byte>): (s: string)
    requires 1 <= |b| <= 3
    ensures |s| == 4
  {
    if |b| == 1 then
      [EncodeSextet(b[0] / 4), EncodeSextet((b[0] % 4) * 16), '=', '=']
    else if |b| == 2 then
      [EncodeSextet(b[0] / 4), EncodeSextet((b[0] % 4) * 16 + b[1] / 16),
       EncodeSextet((b[1] % 16) * 4), '=']
    else
      [EncodeSextet(b[0] / 4), EncodeSextet((b[0] % 4) * 16 + b[1] / 16),
       EncodeSextet((b[1] % 16) * 4 + b[2] / 64), EncodeSextet(b[2] % 64)]
  }

  /** `base64.b64encode(b).decode()`: four characters for every started group of three bytes. */
  function Encode(b: seq<byte>): (s: string)
    ensures |s| == 4 * ((|b| + 2) / 3)
    decreases |b|
  {
    if |b| == 0 then ""
    else if |b| <= 3 then EncodeQuantum(b)
    else EncodeQuantum(b[..3]) + Encode(b[3..])
  }

  /** Four characters back to one to three bytes; `None` when they are not a valid quantum. */
  function DecodeQuantum(q: string): Option<seq<byte>>
    requires |q| == 4
  {
    match (DecodeChar(q[0]), DecodeChar(q[1]), DecodeChar(q[2]), DecodeChar(q[3]))
    case (Some(c0), Some(c1), None, None) =>
      if q[2] == '=' && q[3] == '=' then Some([First(c0, c1)]) else None
    case (Some(c0), Some(c1), Some(c2), None) =>
      if q[3] == '=' then Some([First(c0, c1), Second(c1, c2)]) else None
    case (Some(c0), Some(c1), Some(c2), Some(c3)) =>
      Some([First(c0, c1), Second(c1, c2), Third(c2, c3)])
    case _ => None
  }

  /** The byte spread over the first two characters of a quantum: 6 bits, then 2. */
  function First(c0: sextet, c1: sextet): byte {
    (c0 as int) * 4 + (c1 as int) / 16
  }

  /** The byte spread over the second and third characters: 4 bits, then 4. */
  function Second(c1: sextet, c2: sextet): byte {
    ((c1 as int) % 16) * 16 + (c2 as int) / 4
  }

  /** The byte spread over the third and fourth characters: 2 bits, then 6. */
  function Third(c2: sextet, c3: sextet): byte {
    ((c2 as int) % 4) * 64 + c3 as int
  }

  /**
   * Decoding: the length is a multiple of four, every quantum is valid, and
   * only the last one may carry padding.
   */
  function Decode(s: string): Option<seq<byte>>
    decreases |s|
  {
    if |s| == 0 then Some([])
    else if |s| < 4 then None
    else
      match DecodeQuantum(s[..4])
      case None => None
      case Some(bs) =>
        if |bs| < 3 && |s| > 4 then None
        else
          match Decode(s[4..])
          case None => None
          case Some(rest) => Some(bs + rest)
  }

  lemma QuantumRoundTrip(b: seq<byte>)
    requires 1 <= |b| <= 3
    ensures DecodeQuantum(EncodeQuantum(b)) == Some(b)
  {
    var q := EncodeQuantum(b);
    var b0 := b[0];
    if |b| == 1 {
      var s0, s1 := b0 / 4, (b0 % 4) * 16;
      assert First(s0, s1) == b0;
      assert DecodeChar(q[0]) == Some(s0) && DecodeChar(q[1]) == Some(s1);
      assert DecodeChar(q[2]) == None && DecodeChar(q[3]) == None;
      assert [b0] == b;
    } else if |b| == 2 {
      var b1 := b[1];
      var s0, s1, s2 := b0 / 4, (b0 % 4) * 16 + b1 / 16, (b1 % 16) * 4;
      assert First(s0, s1) == b0;
      assert Second(s1, s2) == b1;
      assert DecodeChar(q[0]) == Some(s0) && DecodeChar(q[1]) == Some(s1) && DecodeChar(q[2]) == Some(s2);
      assert DecodeChar(q[3]) == None;
      assert [b0, b1] == b;
    } else {
      var b1, b2 := b[1], b[2];
      var s0, s1 := b0 / 4, (b0 % 4) * 16 + b1 / 16;
      var s2, s3 := (b1 % 16) * 4 + b2 / 64, b2 % 64;
      assert First(s0, s1) == b0;
      assert Second(s1, s2) == b1;
      assert Third(s2, s3) == b2;
      assert DecodeChar(q[0]) == Some(s0) && DecodeChar(q[1]) == Some(s1);
      assert DecodeChar(q[2]) == Some(s2) && DecodeChar(q[3]) == Some(s3);
      assert [b0, b1, b2] == b;
    }
  }

  /** Decoding what was encoded gives back the input bytes. */
  lemma {:induction false} DecodeEncode(b: seq<byte>)
    ensures Decode(Encode(b)) == Some(b)
    decreases |b|
  {
    if |b| == 0 {
    } else if |b| <= 3 {
      QuantumRoundTrip(b);
      assert Encode(b)[..4] == EncodeQuantum(b);
      assert Encode(b)[4..] == "";
      assert b + [] == b;
    } else {
      var s := Encode(b);
      assert s == EncodeQuantum(b[..3]) + Encode(b[3..]);
      assert s[..4] == EncodeQuantum(b[..3]);
      assert s[4..] == Encode(b[3..]);
      QuantumRoundTrip(b[..3]);
      DecodeEncode(b[3..]);
      assert b[..3] + b[3..] == b;
    }
  }

  /** Every character of an encoding is from the alphabet or is the pad `=`. */
  lemma {:induction false} EncodeAlphabet(b: seq<byte>)
    ensures forall i :: 0 <= i < |Encode(b)| ==> Encode(b)[i] == '=' || DecodeChar(Encode(b)[i]).Some?
    decreases |b|
  {
    if |b| > 3 {
      EncodeAlphabet(b[3..]);
      assert Encode(b) == EncodeQuantum(b[..3]) + Encode(b[3..]);
    }
  }
}
