/** How encoding/json spells a byte slice: a quoted base64 string (section 4 of RFC 4648). */
module Base64 {
  import opened Results

  type byte = b: int | 0 <= b < 256
  type Bytes = seq<byte>

  const QUOTE: byte := 34
  const PAD: byte := 61

  /** The base64 alphabet. */
  function Digit(d: nat): byte
    requires d < 64
  {
    if d < 26 then 65 + d
    else if d < 52 then 97 + d - 26
    else if d < 62 then 48 + d - 52
    else if d == 62 then 43
    else 47
  }

  function Value(c: byte): (d: Option<nat>)
    ensures d.Some? ==> d.value < 64 && Digit(d.value) == c
  {
    if 65 <= c < 91 then Some(c - 65)
    else if 97 <= c < 123 then Some(c - 97 + 26)
    else if 48 <= c < 58 then Some(c - 48 + 52)
    else if c == 43 then Some(62)
    else if c == 47 then Some(63)
    else None
  }

  /** Three bytes become four digits; a shorter tail is padded. */
  function Encode(b: Bytes): Bytes {
    if b == [] then []
    else if |b| == 1 then [Digit(b[0] / 4), Digit(b[0] % 4 * 16), PAD, PAD]
    else if |b| == 2 then [Digit(b[0] / 4), Digit(b[0] % 4 * 16 + b[1] / 16), Digit(b[1] % 16 * 4), PAD]
    else
      [Digit(b[0] / 4), Digit(b[0] % 4 * 16 + b[1] / 16), Digit(b[1] % 16 * 4 + b[2] / 64),
       Digit(b[2] % 64)] + Encode(b[3..])
  }

  function First(p: nat, q: nat): byte
    requires p < 64 && q < 64
  {
    p * 4 + q / 16
  }

  function Second(q: nat, r: nat): byte
    requires q < 64 && r < 64
  {
    q % 16 * 16 + r / 4
  }

  function Third(r: nat, s: nat): byte
    requires r < 64 && s < 64
  {
    r % 4 * 64 + s
  }

  /** Like Go's decoder, leftover bits before the padding are not checked. */
  function Decode(s: Bytes): Option<Bytes> {
    if s == [] then Some([])
    else if |s| < 4 then None
    else
      var p, q, r, t := Value(s[0]), Value(s[1]), Value(s[2]), Value(s[3]);
      if p.None? || q.None? then None
      else if |s| == 4 && s[2] == PAD && s[3] == PAD then Some([First(p.value, q.value)])
      else if r.None? then None
      else if |s| == 4 && s[3] == PAD then Some([First(p.value, q.value), Second(q.value, r.value)])
      else if t.None? then None
      else
        match Decode(s[4..])
        case None => None
        case Some(rest) => Some([First(p.value, q.value), Second(q.value, r.value), Third(r.value, t.value)] + rest)
  }

  lemma ValueOfDigit(d: nat)
    requires d < 64
    ensures Value(Digit(d)) == Some(d) && Digit(d) != PAD
  {
  }

  lemma GroupRoundTrip(x: byte, y: byte, z: byte)
    ensures First(x / 4, x % 4 * 16 + y / 16) == x
    ensures Second(x % 4 * 16 + y / 16, y % 16 * 4 + z / 64) == y
    ensures Third(y % 16 * 4 + z / 64, z % 64) == z
  {
  }

  lemma {:induction false} DecodeEncode(b: Bytes)
    ensures Decode(Encode(b)) == Some(b)
  {
    hide Digit, Value, First, Second, Third;
    if b != [] {
      var x, y, z := b[0], if |b| > 1 then b[1] else 0, if |b| > 2 then b[2] else 0;
      GroupRoundTrip(x, y, z);
      ValueOfDigit(x / 4);
      ValueOfDigit(x % 4 * 16 + y / 16);
      ValueOfDigit(y % 16 * 4 + z / 64);
      ValueOfDigit(z % 64);
      if |b| > 2 {
        DecodeEncode(b[3..]);
        assert Encode(b)[4..] == Encode(b[3..]);
        assert b == [x, y, z] + b[3..];
      } else {
        assert b == if |b| == 1 then [x] else [x, y];
      }
    }
  }

  lemma GroupBits(x: nat, y: nat, z: nat)
    ensures ((x / 4 * 64 + (x % 4 * 16 + y / 16)) * 64 + (y % 16 * 4 + z / 64)) * 64 + z % 64 ==
            (x * 256 + y) * 256 + z
  {
  }

  /** The digits spell the same bits, six at a time; a tail is filled up with zero bits and marked. */
  lemma SameBits(b: Bytes) returns (x: nat, y: nat, z: nat, p: nat, q: nat, r: nat, t: nat)
    requires b != []
    ensures x == b[0] && y == (if |b| > 1 then b[1] else 0) && z == (if |b| > 2 then b[2] else 0)
    ensures p < 64 && q < 64 && r < 64 && t < 64
    ensures ((p * 64 + q) * 64 + r) * 64 + t == (x * 256 + y) * 256 + z
    ensures Encode(b) == [Digit(p), Digit(q), if |b| > 1 then Digit(r) else PAD, if |b| > 2 then Digit(t) else PAD]
                         + Encode(b[if |b| > 2 then 3 else |b|..])
  {
    hide Digit;
    x, y, z := b[0], if |b| > 1 then b[1] else 0, if |b| > 2 then b[2] else 0;
    p, q, r, t := x / 4, x % 4 * 16 + y / 16, y % 16 * 4 + z / 64, z % 64;
    GroupBits(x, y, z);
  }

  /** json.Marshal of a byte slice. */
  function Quoted(b: Bytes): Bytes {
    [QUOTE] + Encode(b) + [QUOTE]
  }

  /** json.Unmarshal into a byte slice, of a string without escapes. */
  function Unquoted(s: Bytes): Option<Bytes> {
    if |s| >= 2 && s[0] == QUOTE && s[|s| - 1] == QUOTE then Decode(s[1..|s| - 1]) else None
  }

  lemma UnquotedQuoted(b: Bytes)
    ensures Unquoted(Quoted(b)) == Some(b)
  {
    DecodeEncode(b);
    assert Quoted(b)[1..|Quoted(b)| - 1] == Encode(b);
  }
}
