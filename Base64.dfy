/**
 * The basic Base64 alphabet of section 4 (Table 1) of RFC 4648, decoded the way
 * `java.util.Base64.getDecoder()` decodes a `String`:
 *  - every character must be in the alphabet or be the pad character `=`;
 *  - the final unit may omit its padding ("QQ" decodes like "QQ==");
 *  - a final unit of one character, a pad at the start of a unit or after a single
 *    character, a lone pad after two characters, and anything after the padding are errors;
 *  - the unused low bits of a final unit are not checked ("QR==" decodes like "QQ==").
 * The encoder emits padded, canonical text.
 */
module Base64 {
  import opened Wrappers
  import opened JavaLang

  const PadChar: char := '='

  predicate IsAlphabetChar(c: char) {
    'A' <= c <= 'Z' || 'a' <= c <= 'z' || '0' <= c <= '9' || c == '+' || c == '/'
  }

  /** The 6-bit value of an alphabet character. */
  function Sextet(c: char): (v: nat)
    requires IsAlphabetChar(c)
    ensures v < 64
  {
    if 'A' <= c <= 'Z' then c as int - 'A' as int
    else if 'a' <= c <= 'z' then c as int - 'a' as int + 26
    else if '0' <= c <= '9' then c as int - '0' as int + 52
    else if c == '+' then 62
    else 63
  }

  /** The alphabet character for a 6-bit value: the inverse of `Sextet`. */
  function Digit(v: nat): (c: char)
    requires v < 64
    ensures IsAlphabetChar(c) && Sextet(c) == v
  {
    if v < 26 then ('A' as int + v) as char
    else if v < 52 then ('a' as int + v - 26) as char
    else if v < 62 then ('0' as int + v - 52) as char
    else if v == 62 then '+'
    else '/'
  }

  /** The three bytes carried by four 6-bit groups. */
  function Quantum(a: nat, b: nat, c: nat, d: nat): (bytes: seq<byte>)
    requires a < 64 && b < 64 && c < 64 && d < 64
    ensures |bytes| == 3
  {
    [(a * 4 + b / 16) as byte, ((b % 16) * 16 + c / 4) as byte, ((c % 4) * 64 + d) as byte]
  }

  predicate IsFullUnit(s: string) {
    |s| >= 4 && IsAlphabetChar(s[0]) && IsAlphabetChar(s[1]) && IsAlphabetChar(s[2]) && IsAlphabetChar(s[3])
  }

  /** `Base64.getDecoder().decode(s)`; `None` is the `IllegalArgumentException`. */
  function Decode(s: string): (r: Option<seq<byte>>)
    ensures |s| % 4 == 1 ==> r.None?
    ensures r.Some? ==> (|r.value| == 0 <==> |s| == 0) && |r.value| * 4 <= |s| * 3
    decreases |s|
  {
    if |s| == 0 then Some([])
    else if IsFullUnit(s) then
      match Decode(s[4..])
      case Some(rest) => Some(Quantum(Sextet(s[0]), Sextet(s[1]), Sextet(s[2]), Sextet(s[3])) + rest)
      case None => None
    else DecodeFinalUnit(s)
  }

  /** The last, incomplete unit: fewer than four alphabet characters, then the end of
      the text or padding. */
  function DecodeFinalUnit(s: string): (r: Option<seq<byte>>)
    requires |s| > 0 && !IsFullUnit(s)
    ensures r.Some? ==> 2 <= |s| <= 4 && 1 <= |r.value| <= 2 && |r.value| * 4 <= |s| * 3
  {
    if !IsAlphabetChar(s[0]) || |s| == 1 || !IsAlphabetChar(s[1]) then None
    else if |s| == 2 then Some(Quantum(Sextet(s[0]), Sextet(s[1]), 0, 0)[..1])
    else if !IsAlphabetChar(s[2]) then
      if s[2] == PadChar && |s| == 4 && s[3] == PadChar
      then Some(Quantum(Sextet(s[0]), Sextet(s[1]), 0, 0)[..1])
      else None
    else if |s| == 3 then Some(Quantum(Sextet(s[0]), Sextet(s[1]), Sextet(s[2]), 0)[..2])
    else if s[3] == PadChar && |s| == 4
    then Some(Quantum(Sextet(s[0]), Sextet(s[1]), Sextet(s[2]), 0)[..2])
    else None
  }

  /** `Base64.getEncoder().encodeToString(bytes)`: padded output. */
  function Encode(bytes: seq<byte>): string
  {
    if |bytes| == 0 then ""
    else
      var x := bytes[0] as int;
      if |bytes| == 1 then
        [Digit(x / 4), Digit((x % 4) * 16), PadChar, PadChar]
      else
        var y := bytes[1] as int;
        if |bytes| == 2 then
          [Digit(x / 4), Digit((x % 4) * 16 + y / 16), Digit((y % 16) * 4), PadChar]
        else
          var z := bytes[2] as int;
          [Digit(x / 4), Digit((x % 4) * 16 + y / 16), Digit((y % 16) * 4 + z / 64), Digit(z % 64)]
          + Encode(bytes[3..])
  }

  /** The four digits the encoder writes for three bytes give those bytes back. */
  lemma QuantumOfDigits(x: int, y: int, z: int)
    requires 0 <= x < 256 && 0 <= y < 256 && 0 <= z < 256
    ensures Quantum(x / 4, (x % 4) * 16 + y / 16, (y % 16) * 4 + z / 64, z % 64)
            == [x as byte, y as byte, z as byte]
  {
    var b, c := (x % 4) * 16 + y / 16, (y % 16) * 4 + z / 64;
    assert b / 16 == x % 4 && b % 16 == y / 16;
    assert c / 4 == y % 16 && c % 4 == z / 64;
    assert (x / 4) * 4 + x % 4 == x;
    assert (y / 16) * 16 + y % 16 == y;
    assert (z / 64) * 64 + z % 64 == z;
  }

  /** Round trip: decoding the encoding of any byte string gives it back. */
  lemma {:induction false} DecodeEncode(bytes: seq<byte>)
    ensures Decode(Encode(bytes)) == Some(bytes)
  {
    if |bytes| == 0 {
    } else if |bytes| == 1 {
      var x := bytes[0] as int;
      var s := Encode(bytes);
      assert !IsAlphabetChar(s[2]);
      QuantumOfDigits(x, 0, 0);
      var q := Quantum(x / 4, (x % 4) * 16, 0, 0);
      assert q[0] == x as byte;
      assert q[..1] == [q[0]];
      assert Decode(s) == Some(q[..1]);
      assert bytes == [x as byte];
    } else if |bytes| == 2 {
      var x, y := bytes[0] as int, bytes[1] as int;
      var s := Encode(bytes);
      assert !IsAlphabetChar(s[3]);
      QuantumOfDigits(x, y, 0);
      var q := Quantum(x / 4, (x % 4) * 16 + y / 16, (y % 16) * 4, 0);
      assert q[0] == x as byte && q[1] == y as byte;
      assert q[..2] == [q[0], q[1]];
      assert Decode(s) == Some(q[..2]);
      assert bytes == [x as byte, y as byte];
    } else {
      var x, y, z := bytes[0] as int, bytes[1] as int, bytes[2] as int;
      var s := Encode(bytes);
      QuantumOfDigits(x, y, z);
      assert s[4..] == Encode(bytes[3..]);
      DecodeEncode(bytes[3..]);
      assert bytes == [x as byte, y as byte, z as byte] + bytes[3..];
    }
  }

  /** The encoder writes only alphabet and pad characters, four for every three bytes
      or part thereof. */
  lemma {:induction false} EncodeShape(bytes: seq<byte>)
    ensures |Encode(bytes)| == 4 * ((|bytes| + 2) / 3)
    ensures forall i :: 0 <= i < |Encode(bytes)| ==> IsAlphabetChar(Encode(bytes)[i]) || Encode(bytes)[i] == PadChar
    ensures |bytes| > 0 ==> IsAlphabetChar(Encode(bytes)[0])
  {
    if |bytes| > 2 {
      EncodeShape(bytes[3..]);
    }
  }

  /** A character that is neither in the alphabet nor the pad, anywhere in the text,
      makes decoding fail. */
  lemma {:induction false} DecodeRejectsForeignChar(s: string, i: int)
    requires 0 <= i < |s| && !IsAlphabetChar(s[i]) && s[i] != PadChar
    ensures Decode(s) == None
    decreases |s|
  {
    if IsFullUnit(s) {
      DecodeRejectsForeignChar(s[4..], i - 4);
    }
  }

  /** Encoded non-empty data is never blank, so it reaches the decoder. */
  lemma EncodeNotBlank(bytes: seq<byte>)
    requires |bytes| > 0
    ensures !IsBlank(Encode(bytes))
  {
    EncodeShape(bytes);
    assert !IsWhitespace(Encode(bytes)[0]);
  }
}
