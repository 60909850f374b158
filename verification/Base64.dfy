/** Standard base64 with padding (section 4 of RFC 4648) and hexadecimal (section 8), on bytes. */
module Base64 {
  import opened Common
  import opened Hex

  type byte = n: int | 0 <= n < 256

  type sextet = n: int | 0 <= n < 64

  // ---- alphabet

  function Symbol(n: sextet): char {
    if n < 26 then (65 + n) as char
    else if n < 52 then (71 + n) as char
    else if n < 62 then (n - 4) as char
    else if n == 62 then '+'
    else '/'
  }

  function SymbolValue(c: char): Option<sextet> {
    if 'A' <= c <= 'Z' then Some(c as int - 65)
    else if 'a' <= c <= 'z' then Some(c as int - 71)
    else if '0' <= c <= '9' then Some(c as int + 4)
    else if c == '+' then Some(62)
    else if c == '/' then Some(63)
    else None
  }

  lemma SymbolInverts(n: sextet)
    ensures SymbolValue(Symbol(n)) == Some(n) && Symbol(n) != '='
  {
  }

  // ---- encoding

  /** The four characters of one group of up to three bytes. */
  function EncodeGroup(b: seq<byte>): (s: string)
    requires 1 <= |b| <= 3
    ensures |s| == 4
  {
    if |b| == 1 then [Symbol(b[0] / 4), Symbol(b[0] % 4 * 16), '=', '=']
    else if |b| == 2 then [Symbol(b[0] / 4), Symbol(b[0] % 4 * 16 + b[1] / 16), Symbol(b[1] % 16 * 4), '=']
    else
      [Symbol(b[0] / 4), Symbol(b[0] % 4 * 16 + b[1] / 16), Symbol(b[1] % 16 * 4 + b[2] / 64), Symbol(b[2] % 64)]
  }

  function Encode(b: seq<byte>): (s: string)
    ensures b != [] ==> |s| >= 4
    decreases |b|
  {
    if b == [] then "" else if |b| <= 3 then EncodeGroup(b) else EncodeGroup(b[..3]) + Encode(b[3..])
  }

  /** The bytes of one group of four characters; only the last group may be padded. */
  function DecodeGroup(s: string): Option<seq<byte>>
    requires |s| == 4
  {
    match (SymbolValue(s[0]), SymbolValue(s[1]))
    case (Some(p), Some(q)) =>
      if s[2] == '=' then (if s[3] == '=' then Some([p * 4 + q / 16]) else None)
      else (match SymbolValue(s[2])
            case None => None
            case Some(r) =>
              if s[3] == '=' then Some([p * 4 + q / 16, q % 16 * 16 + r / 4])
              else match SymbolValue(s[3])
                   case None => None
                   case Some(t) => Some([p * 4 + q / 16, q % 16 * 16 + r / 4, r % 4 * 64 + t]))
    case _ => None
  }

  function Decode(s: string): Option<seq<byte>>
    decreases |s|
  {
    if s == [] then Some([])
    else if |s| < 4 then None
    else match DecodeGroup(s[..4])
      case None => None
      case Some(head) =>
        if |s| == 4 then Some(head)
        else if |head| < 3 then None
        else match Decode(s[4..])
          case None => None
          case Some(tail) => Some(head + tail)
  }

  lemma FirstByte(a: byte, b: byte)
    ensures a / 4 * 4 + (a % 4 * 16 + b / 16) / 16 == a
  {
  }

  lemma SecondByte(a: byte, b: byte, c: byte)
    ensures (a % 4 * 16 + b / 16) % 16 * 16 + (b % 16 * 4 + c / 64) / 4 == b
  {
  }

  lemma ThirdByte(b: byte, c: byte)
    ensures (b % 16 * 4 + c / 64) % 4 * 64 + c % 64 == c
  {
  }

  lemma OneByteDecodes(x: byte)
    ensures DecodeGroup(EncodeGroup([x])) == Some([x])
  {
    SymbolInverts(x / 4);
    SymbolInverts(x % 4 * 16);
    FirstByte(x, 0);
  }

  lemma TwoBytesDecode(x: byte, y: byte)
    ensures DecodeGroup(EncodeGroup([x, y])) == Some([x, y])
  {
    SymbolInverts(x / 4);
    SymbolInverts(x % 4 * 16 + y / 16);
    SymbolInverts(y % 16 * 4);
    FirstByte(x, y);
    SecondByte(x, y, 0);
  }

  lemma ThreeBytesDecode(x: byte, y: byte, z: byte)
    ensures DecodeGroup(EncodeGroup([x, y, z])) == Some([x, y, z])
  {
    SymbolInverts(x / 4);
    SymbolInverts(x % 4 * 16 + y / 16);
    SymbolInverts(y % 16 * 4 + z / 64);
    SymbolInverts(z % 64);
    FirstByte(x, y);
    SecondByte(x, y, z);
    ThirdByte(y, z);
  }

  lemma GroupDecodes(b: seq<byte>)
    requires 1 <= |b| <= 3
    ensures DecodeGroup(EncodeGroup(b)) == Some(b)
  {
    if |b| == 1 {
      OneByteDecodes(b[0]);
      assert b == [b[0]];
    } else if |b| == 2 {
      TwoBytesDecode(b[0], b[1]);
      assert b == [b[0], b[1]];
    } else {
      ThreeBytesDecode(b[0], b[1], b[2]);
      assert b == [b[0], b[1], b[2]];
    }
  }

  /** Decoding undoes encoding, for every byte string. */
  lemma {:induction false} DecodeInverts(b: seq<byte>)
    ensures Decode(Encode(b)) == Some(b)
    decreases |b|
  {
    if b == [] {
    } else if |b| <= 3 {
      GroupDecodes(b);
      assert Encode(b)[..4] == EncodeGroup(b);
    } else {
      DecodeInverts(b[3..]);
      DecodeCons(b[..3], b[3..]);
      assert b == b[..3] + b[3..];
    }
  }

  lemma DecodeCons(head: seq<byte>, tail: seq<byte>)
    requires |head| == 3 && tail != [] && Decode(Encode(tail)) == Some(tail)
    ensures Decode(EncodeGroup(head) + Encode(tail)) == Some(head + tail)
  {
    var s := EncodeGroup(head) + Encode(tail);
    GroupDecodes(head);
    assert s[..4] == EncodeGroup(head) && s[4..] == Encode(tail);
  }

  predicate IsPlain(c: char) {
    c == '=' || SymbolValue(c).Some?
  }

  lemma GroupIsPlain(b: seq<byte>)
    requires 1 <= |b| <= 3
    ensures forall c :: c in EncodeGroup(b) ==> IsPlain(c)
  {
    SymbolInverts(b[0] / 4);
    if |b| == 1 {
      SymbolInverts(b[0] % 4 * 16);
    } else {
      SymbolInverts(b[0] % 4 * 16 + b[1] / 16);
      if |b| == 2 {
        SymbolInverts(b[1] % 16 * 4);
      } else {
        SymbolInverts(b[1] % 16 * 4 + b[2] / 64);
        SymbolInverts(b[2] % 64);
      }
    }
  }

  /** Encoded text is printable: it survives a NUL-terminated string and never looks like a JSON object. */
  lemma {:induction false} EncodedIsPlain(b: seq<byte>)
    ensures forall c :: c in Encode(b) ==> IsPlain(c)
    decreases |b|
  {
    if b == [] {
    } else if |b| <= 3 {
      GroupIsPlain(b);
    } else {
      GroupIsPlain(b[..3]);
      EncodedIsPlain(b[3..]);
    }
  }

  /** The alphabet of section 4. */
  lemma SymbolIs(n: sextet)
    ensures Symbol(n) as int ==
      if n < 26 then 'A' as int + n
      else if n < 52 then 'a' as int + (n - 26)
      else if n < 62 then '0' as int + (n - 52)
      else if n == 62 then '+' as int
      else '/' as int
  {
  }

  /** Three bytes are four groups of six bits, from the highest on; one or two bytes are padded. */
  lemma GroupIs(a: byte, b: byte, c: byte)
    ensures EncodeGroup([a, b, c]) == [Symbol(a / 4), Symbol((a % 4) * 16 + b / 16), Symbol((b % 16) * 4 + c / 64),
                                       Symbol(c % 64)]
    ensures EncodeGroup([a, b])[..3] == EncodeGroup([a, b, 0])[..3] && EncodeGroup([a, b])[3] == '='
    ensures EncodeGroup([a])[..2] == EncodeGroup([a, 0, 0])[..2] && EncodeGroup([a])[2..] == "=="
  {
    hide Symbol;
  }

  /** Test vectors of section 10. */
  lemma TestVectors()
    ensures Encode([0x66]) == "Zg==" && Encode([0x66, 0x6F]) == "Zm8=" && Encode([0x66, 0x6F, 0x6F]) == "Zm9v"
  {
  }

  /** Only whole groups of plain characters are decoded. */
  lemma {:induction false} DecodedIsPlain(s: string)
    requires Decode(s).Some?
    ensures |s| % 4 == 0 && forall c :: c in s ==> IsPlain(c)
    decreases |s|
  {
    if s != [] {
      var head := s[..4];
      assert head[0] == s[0] && head[1] == s[1] && head[2] == s[2] && head[3] == s[3];
      assert forall c :: c in head ==> IsPlain(c);
      if |s| > 4 {
        DecodedIsPlain(s[4..]);
        assert s == head + s[4..];
      }
    }
  }

  // ---- hexadecimal

  function HexEncode(b: seq<byte>): string {
    if b == [] then "" else [HexDigit(b[0] / 16), HexDigit(b[0] % 16)] + HexEncode(b[1..])
  }

  /** hex.DecodeString: None for an odd length or a character that is no hexadecimal digit. */
  function HexDecode(s: string): Option<seq<byte>>
    decreases |s|
  {
    if s == [] then Some([])
    else if |s| == 1 then None
    else match (HexValue(s[0]), HexValue(s[1]), HexDecode(s[2..]))
      case (Some(h), Some(l), Some(tail)) => Some([16 * h + l] + tail)
      case _ => None
  }

  lemma HexDecodeCons(h: char, l: char, rest: string, high: nat, low: nat, tail: seq<byte>)
    requires HexValue(h) == Some(high) && HexValue(l) == Some(low) && HexDecode(rest) == Some(tail)
    ensures HexDecode([h, l] + rest) == Some([16 * high + low] + tail)
  {
    assert ([h, l] + rest)[2..] == rest;
  }

  lemma {:induction false} HexDecodeInverts(b: seq<byte>)
    ensures HexDecode(HexEncode(b)) == Some(b)
  {
    if b != [] {
      var high: nat, low: nat := b[0] / 16, b[0] % 16;
      HexDecodeInverts(b[1..]);
      HexDigitParses(high);
      HexDigitParses(low);
      HexDecodeCons(HexDigit(high), HexDigit(low), HexEncode(b[1..]), high, low, b[1..]);
      assert 16 * high + low == b[0];
      assert b == [b[0]] + b[1..];
    }
  }

  /** Exactly the texts of an even number of hexadecimal digits are decoded, two digits to a byte. */
  lemma {:induction false} HexDecodeIff(s: string)
    ensures HexDecode(s).Some? <==> |s| % 2 == 0 && forall i :: 0 <= i < |s| ==> HexValue(s[i]).Some?
    ensures HexDecode(s).Some? ==> 2 * |HexDecode(s).value| == |s|
    decreases |s|
  {
    if |s| >= 2 {
      HexDecodeIff(s[2..]);
      assert forall i :: 0 <= i < |s| - 2 ==> s[2..][i] == s[i + 2];
      assert forall i :: 2 <= i < |s| ==> s[i] == s[2..][i - 2];
    }
  }
}
