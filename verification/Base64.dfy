/**
 The standard base64 codec (section 4 of RFC 4648) with padding, as Go's
 `base64.StdEncoding` implements it: the decoder skips CR and LF, refuses
 misplaced padding and does not look at the unused trailing bits.
 */
module Base64 {
  import opened Wrappers

  type Byte = b: int | 0 <= b < 256
  type Sextet = v: int | 0 <= v < 64

  /** The alphabet A-Z, a-z, 0-9, +, /. */
  function Symbol(v: Sextet): char {
    if v < 26 then 'A' + v as char
    else if v < 52 then 'a' + (v - 26) as char
    else if v < 62 then '0' + (v - 52) as char
    else if v == 62 then '+' else '/'
  }

  function Value(c: char): Option<Sextet> {
    if 'A' <= c <= 'Z' then Some((c - 'A') as int)
    else if 'a' <= c <= 'z' then Some((c - 'a') as int + 26)
    else if '0' <= c <= '9' then Some((c - '0') as int + 52)
    else if c == '+' then Some(62)
    else if c == '/' then Some(63) else None
  }

  /** What the encoder can emit. */
  predicate InOutput(c: char) {
    Value(c).Some? || c == '='
  }

  /** The four symbols of one group of three bytes. */
  function Quad(a: Byte, b: Byte, c: Byte): (text: string)
    ensures |text| == 4 && forall k :: 0 <= k < 4 ==> Value(text[k]).Some?
  {
    [Symbol(a / 4), Symbol(a % 4 * 16 + b / 16), Symbol(b % 16 * 4 + c / 64), Symbol(c % 64)]
  }

  /** The three bytes of one group of four sextets. */
  function Triple(p: Sextet, q: Sextet, r: Sextet, s: Sextet): (bytes: seq<Byte>)
    ensures |bytes| == 3
  {
    var x: Byte := p * 4 + q / 16;
    var y: Byte := q % 16 * 16 + r / 4;
    var z: Byte := r % 4 * 64 + s;
    [x, y, z]
  }

  function Encode(bytes: seq<Byte>): (text: string)
    ensures forall c :: c in text ==> InOutput(c)
  {
    if bytes == [] then ""
    else if |bytes| == 1 then Quad(bytes[0], 0, 0)[..2] + "=="
    else if |bytes| == 2 then Quad(bytes[0], bytes[1], 0)[..3] + "="
    else Quad(bytes[0], bytes[1], bytes[2]) + Encode(bytes[3..])
  }

  /** The text without the line breaks that the decoder skips. */
  function Unwrapped(text: string): string {
    if text == "" then ""
    else if text[0] == '\r' || text[0] == '\n' then Unwrapped(text[1..])
    else [text[0]] + Unwrapped(text[1..])
  }

  /** Decodes groups of four symbols; only the last group may be padded. */
  function DecodeGroups(text: string): Option<seq<Byte>>
    decreases |text|
  {
    if text == "" then Some([])
    else if |text| < 4 then None
    else
      match (Value(text[0]), Value(text[1]), Value(text[2]), Value(text[3]))
      case (Some(p), Some(q), Some(r), Some(s)) =>
        var tail := DecodeGroups(text[4..]);
        if tail.None? then None
        else Some(Triple(p, q, r, s) + tail.value)
      case (Some(p), Some(q), Some(r), None) =>
        if text[3] == '=' && |text| == 4 then Some(Triple(p, q, r, 0)[..2]) else None
      case (Some(p), Some(q), None, _) =>
        if text[2] == '=' && text[3] == '=' && |text| == 4 then Some(Triple(p, q, 0, 0)[..1]) else None
      case _ => None
  }

  function Decode(text: string): Option<seq<Byte>> {
    DecodeGroups(Unwrapped(text))
  }

  /** Table 1 of RFC 4648. */
  lemma AlphabetIs()
    ensures Symbol(0) == 'A' && Symbol(1) == 'B' && Symbol(2) == 'C' && Symbol(3) == 'D'
    ensures Symbol(4) == 'E' && Symbol(5) == 'F' && Symbol(6) == 'G' && Symbol(7) == 'H'
    ensures Symbol(8) == 'I' && Symbol(9) == 'J' && Symbol(10) == 'K' && Symbol(11) == 'L'
    ensures Symbol(12) == 'M' && Symbol(13) == 'N' && Symbol(14) == 'O' && Symbol(15) == 'P'
    ensures Symbol(16) == 'Q' && Symbol(17) == 'R' && Symbol(18) == 'S' && Symbol(19) == 'T'
    ensures Symbol(20) == 'U' && Symbol(21) == 'V' && Symbol(22) == 'W' && Symbol(23) == 'X'
    ensures Symbol(24) == 'Y' && Symbol(25) == 'Z' && Symbol(26) == 'a' && Symbol(27) == 'b'
    ensures Symbol(28) == 'c' && Symbol(29) == 'd' && Symbol(30) == 'e' && Symbol(31) == 'f'
    ensures Symbol(32) == 'g' && Symbol(33) == 'h' && Symbol(34) == 'i' && Symbol(35) == 'j'
    ensures Symbol(36) == 'k' && Symbol(37) == 'l' && Symbol(38) == 'm' && Symbol(39) == 'n'
    ensures Symbol(40) == 'o' && Symbol(41) == 'p' && Symbol(42) == 'q' && Symbol(43) == 'r'
    ensures Symbol(44) == 's' && Symbol(45) == 't' && Symbol(46) == 'u' && Symbol(47) == 'v'
    ensures Symbol(48) == 'w' && Symbol(49) == 'x' && Symbol(50) == 'y' && Symbol(51) == 'z'
    ensures Symbol(52) == '0' && Symbol(53) == '1' && Symbol(54) == '2' && Symbol(55) == '3'
    ensures Symbol(56) == '4' && Symbol(57) == '5' && Symbol(58) == '6' && Symbol(59) == '7'
    ensures Symbol(60) == '8' && Symbol(61) == '9' && Symbol(62) == '+' && Symbol(63) == '/'
  {
  }

  /** A group's symbols are the digits to base 64 of its three bytes read as one number. */
  lemma QuadIsNumber(a: Byte, b: Byte, c: Byte)
    ensures var t := Quad(a, b, c);
      Value(t[0]).value * 0x4_0000 + Value(t[1]).value * 0x1000 + Value(t[2]).value * 0x40 + Value(t[3]).value
      == a * 0x1_0000 + b * 0x100 + c
  {
    hide Symbol, Value;
    SymbolValue(a / 4);
    SymbolValue(a % 4 * 16 + b / 16);
    SymbolValue(b % 16 * 4 + c / 64);
    SymbolValue(c % 64);
  }

  /** Short inputs are filled up with zero bytes, whose symbols are replaced by padding. */
  lemma PaddedIs(bytes: seq<Byte>)
    ensures |bytes| == 1 ==> Encode(bytes) == Quad(bytes[0], 0, 0)[..2] + "=="
    ensures |bytes| == 2 ==> Encode(bytes) == Quad(bytes[0], bytes[1], 0)[..3] + "="
    ensures |bytes| > 2 ==> Encode(bytes) == Quad(bytes[0], bytes[1], bytes[2]) + Encode(bytes[3..])
  {
  }

  lemma SymbolValue(v: Sextet)
    ensures Value(Symbol(v)) == Some(v)
  {
  }

  lemma {:induction false} UnwrappedOutput(text: string)
    requires forall c :: c in text ==> InOutput(c)
    ensures Unwrapped(text) == text
  {
    if text == "" {
    } else {
      UnwrappedOutput(text[1..]);
      assert InOutput(text[0]);
    }
  }

  lemma GroupRoundTrip(a: Byte, b: Byte, c: Byte)
    ensures var t := Quad(a, b, c);
      Triple(Value(t[0]).value, Value(t[1]).value, Value(t[2]).value, Value(t[3]).value) == [a, b, c]
  {
    hide Symbol, Value;
    SymbolValue(a / 4);
    SymbolValue(a % 4 * 16 + b / 16);
    SymbolValue(b % 16 * 4 + c / 64);
    SymbolValue(c % 64);
  }

  lemma DecodeOne(a: Byte)
    ensures DecodeGroups(Encode([a])) == Some([a])
  {
    GroupRoundTrip(a, 0, 0);
    var t, q := Encode([a]), Quad(a, 0, 0);
    assert t[0] == q[0] && t[1] == q[1] && t[2] == '=' && t[3] == '=';
    assert Value(q[2]) == Some(0) && Value(q[3]) == Some(0);
    assert Triple(Value(t[0]).value, Value(t[1]).value, 0, 0)[..1] == [a];
  }

  lemma DecodeTwo(a: Byte, b: Byte)
    ensures DecodeGroups(Encode([a, b])) == Some([a, b])
  {
    GroupRoundTrip(a, b, 0);
    var t, q := Encode([a, b]), Quad(a, b, 0);
    assert t[0] == q[0] && t[1] == q[1] && t[2] == q[2] && t[3] == '=';
    assert Value(q[3]) == Some(0);
    assert Triple(Value(t[0]).value, Value(t[1]).value, Value(t[2]).value, 0)[..2] == [a, b];
  }

  lemma {:induction false} DecodeGroupsEncode(bytes: seq<Byte>)
    ensures DecodeGroups(Encode(bytes)) == Some(bytes)
  {
    if bytes == [] {
    } else if |bytes| == 1 {
      assert bytes == [bytes[0]];
      DecodeOne(bytes[0]);
    } else if |bytes| == 2 {
      assert bytes == [bytes[0], bytes[1]];
      DecodeTwo(bytes[0], bytes[1]);
    } else {
      DecodeGroupsEncode(bytes[3..]);
      GroupRoundTrip(bytes[0], bytes[1], bytes[2]);
      assert Encode(bytes)[4..] == Encode(bytes[3..]);
      assert bytes == [bytes[0], bytes[1], bytes[2]] + bytes[3..];
    }
  }

  /** Decoding inverts encoding on every byte string. */
  lemma RoundTrip(bytes: seq<Byte>)
    ensures Decode(Encode(bytes)) == Some(bytes)
  {
    UnwrappedOutput(Encode(bytes));
    DecodeGroupsEncode(bytes);
  }

  /** Encodings are therefore distinct. */
  lemma Injective(a: seq<Byte>, b: seq<Byte>)
    requires Encode(a) == Encode(b)
    ensures a == b
  {
    RoundTrip(a);
    RoundTrip(b);
  }
}
