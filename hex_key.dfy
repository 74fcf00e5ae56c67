/** The secret-key encoding of `generateSecretKey` (script.js:17-23): sixteen random bytes, each
    written as `('0' + (byte & 0xff).toString(16)).slice(-2)`, joined into one string.
    The random bytes are a parameter; `window.crypto.getRandomValues` is not part of this model. */
module HexKey {
  import opened Wrappers

  /** One element of a `Uint8Array`. */
  newtype byte = x: int | 0 <= x < 256

  /** Size of the buffer filled with random bytes (`new Uint8Array(16)`). */
  const KeyBytes: nat := 16

  /** The digits `Number.prototype.toString(16)` writes: `0-9` and lower-case `a-f`. */
  predicate IsLowerHexChar(c: char) {
    '0' <= c <= '9' || 'a' <= c <= 'f'
  }

  predicate AllLowerHex(s: string) {
    forall i :: 0 <= i < |s| ==> IsLowerHexChar(s[i])
  }

  /** The lower-case hexadecimal digit for a value below 16. */
  function HexDigit(d: nat): (c: char)
    requires d < 16
    ensures IsLowerHexChar(c)
    ensures d < 10 <==> '0' <= c <= '9'
    ensures d == 0 <==> c == '0'
  {
    if d < 10 then ('0' as int + d) as char else ('a' as int + (d - 10)) as char
  }

  /** The value of one lower-case hexadecimal digit, or None for any other character. */
  function DigitValue(c: char): (r: Option<nat>)
    ensures r.Some? <==> IsLowerHexChar(c)
    ensures r.Some? ==> r.value < 16 && HexDigit(r.value) == c
  {
    if '0' <= c <= '9' then Some(c as int - '0' as int)
    else if 'a' <= c <= 'f' then Some(c as int - 'a' as int + 10)
    else None
  }

  lemma DigitValueOfHexDigit(d: nat)
    requires d < 16
    ensures DigitValue(HexDigit(d)) == Some(d)
  {
  }

  /** `n.toString(16)` for a non-negative integer: most significant digit first, no leading zeros. */
  function ToHexString(n: nat): (s: string)
    ensures |s| >= 1
    ensures AllLowerHex(s)
    ensures |s| == 1 <==> n < 16
    ensures s[0] == '0' ==> n == 0
    decreases n
  {
    if n < 16 then [HexDigit(n)] else ToHexString(n / 16) + [HexDigit(n % 16)]
  }

  /** The number a string of lower-case hexadecimal digits denotes. */
  function HexNumber(s: string): nat
    requires AllLowerHex(s)
  {
    if s == [] then 0 else HexNumber(s[..|s| - 1]) * 16 + DigitValue(s[|s| - 1]).value
  }

  /** `toString(16)` loses nothing: reading its digits back gives the number. */
  lemma {:induction false} ToHexStringRoundTrip(n: nat)
    ensures HexNumber(ToHexString(n)) == n
    decreases n
  {
    var s := ToHexString(n);
    if n < 16 {
      assert s[..0] == [];
    } else {
      ToHexStringRoundTrip(n / 16);
      assert s[..|s| - 1] == ToHexString(n / 16);
      DigitValueOfHexDigit(n % 16);
    }
  }

  /** `s.slice(-k)`: the last k characters, or all of s when it is shorter. For k = 0 the
      argument `-0` is the start index 0, so the whole string is returned. */
  function SliceLast(s: string, k: nat): (r: string)
    ensures |r| == if k == 0 || |s| <= k then |s| else k
    ensures r == s[|s| - |r|..]
  {
    if k == 0 || |s| <= k then s else s[|s| - k..]
  }

  /** The two characters one byte contributes to the key (script.js:21). */
  function ByteToHex(b: byte): (s: string)
    ensures |s| == 2
    ensures s[0] == HexDigit(b as int / 16) && s[1] == HexDigit(b as int % 16)
  {
    // `byte & 0xff` keeps the low eight bits of the number
    var n := b as int % 256;
    assert ToHexString(n) == if n < 16 then [HexDigit(n)] else [HexDigit(n / 16), HexDigit(n % 16)];
    SliceLast("0" + ToHexString(n), 2)
  }

  /** `Array.from(bytes, ByteToHex).join('')`. */
  function EncodeHex(bytes: seq<byte>): (s: string)
    ensures |s| == 2 * |bytes|
  {
    if bytes == [] then "" else ByteToHex(bytes[0]) + EncodeHex(bytes[1..])
  }

  /** Byte i of the input is written at positions 2i and 2i+1, high nibble first,
      and a byte below 16 gets a leading '0'. */
  lemma {:induction false} EncodeHexAt(bytes: seq<byte>, i: nat)
    requires i < |bytes|
    ensures EncodeHex(bytes)[2 * i] == HexDigit(bytes[i] as int / 16)
    ensures EncodeHex(bytes)[2 * i + 1] == HexDigit(bytes[i] as int % 16)
    ensures bytes[i] as int < 16 <==> EncodeHex(bytes)[2 * i] == '0'
  {
    if i > 0 {
      EncodeHexAt(bytes[1..], i - 1);
      assert EncodeHex(bytes) == ByteToHex(bytes[0]) + EncodeHex(bytes[1..]);
    }
  }

  /** Every character of an encoding is a lower-case hexadecimal digit. */
  lemma EncodeHexAlphabet(bytes: seq<byte>)
    ensures AllLowerHex(EncodeHex(bytes))
  {
  }

  /** One 2-character chunk read as a byte, high digit first; None unless both are digits. */
  function DecodeByte(hi: char, lo: char): (r: Option<byte>)
    ensures r.Some? <==> IsLowerHexChar(hi) && IsLowerHexChar(lo)
  {
    match (DigitValue(hi), DigitValue(lo))
    case (Some(h), Some(l)) => Some((h * 16 + l) as byte)
    case _ => None
  }

  /** The chunk a byte is written as reads back as that byte. */
  lemma DecodeByteToHex(b: byte)
    ensures DecodeByte(ByteToHex(b)[0], ByteToHex(b)[1]) == Some(b)
  {
  }

  /** A chunk that reads as a byte is exactly how that byte is written. */
  lemma ByteToHexDecodeByte(hi: char, lo: char)
    requires DecodeByte(hi, lo).Some?
    ensures ByteToHex(DecodeByte(hi, lo).value) == [hi, lo]
  {
  }

  /** Splits a string into 2-character chunks and reads each as one byte; None when the
      length is odd or a character is not a lower-case hexadecimal digit. */
  function DecodeHex(s: string): (r: Option<seq<byte>>)
    ensures r.Some? ==> 2 * |r.value| == |s|
    decreases |s|
  {
    if |s| == 0 then Some([])
    else if |s| == 1 then None
    else
      match DecodeByte(s[0], s[1])
      case None => None
      case Some(b) =>
        match DecodeHex(s[2..])
        case None => None
        case Some(rest) => Some([b] + rest)
  }

  /** Decoding accepts exactly the even-length strings of lower-case hexadecimal digits. */
  lemma {:induction false} DecodeHexAccepts(s: string)
    ensures DecodeHex(s).Some? <==> |s| % 2 == 0 && AllLowerHex(s)
    decreases |s|
  {
    if |s| >= 2 {
      DecodeHexAccepts(s[2..]);
      assert forall i :: 2 <= i < |s| ==> s[i] == s[2..][i - 2];
    }
  }

  /** Decoding an encoding gives back the bytes. */
  lemma {:induction false} DecodeEncodeHex(bytes: seq<byte>)
    ensures DecodeHex(EncodeHex(bytes)) == Some(bytes)
  {
    if bytes != [] {
      var s := EncodeHex(bytes);
      var pair := ByteToHex(bytes[0]);
      DecodeEncodeHex(bytes[1..]);
      assert s == pair + EncodeHex(bytes[1..]);
      assert s[2..] == EncodeHex(bytes[1..]);
      DecodeByteToHex(bytes[0]);
      assert DecodeByte(s[0], s[1]) == Some(bytes[0]);
      assert [bytes[0]] + bytes[1..] == bytes;
    }
  }

  /** Encoding whatever decoding accepted gives back the string. */
  lemma {:induction false} EncodeDecodeHex(s: string)
    requires DecodeHex(s).Some?
    ensures EncodeHex(DecodeHex(s).value) == s
    decreases |s|
  {
    if |s| >= 2 {
      var bytes := DecodeHex(s).value;
      var b := DecodeByte(s[0], s[1]).value;
      var rest := DecodeHex(s[2..]).value;
      assert bytes == [b] + rest;
      assert bytes[0] == b && bytes[1..] == rest;
      calc {
        EncodeHex(bytes);
        ByteToHex(b) + EncodeHex(rest);
        { ByteToHexDecodeByte(s[0], s[1]); }
        [s[0], s[1]] + EncodeHex(rest);
        { EncodeDecodeHex(s[2..]); }
        [s[0], s[1]] + s[2..];
        s;
      }
    }
  }

  /** Two different byte sequences never give the same key. */
  lemma EncodeHexInjective(a: seq<byte>, b: seq<byte>)
    requires EncodeHex(a) == EncodeHex(b)
    ensures a == b
  {
    DecodeEncodeHex(a);
    DecodeEncodeHex(b);
  }

  /** `generateSecretKey` with the random bytes it draws (script.js:17-23): a 32-character
      lower-case hexadecimal string from which the bytes can be read back. */
  function GenerateSecretKey(randomBytes: seq<byte>): (key: string)
    requires |randomBytes| == KeyBytes
    ensures |key| == 2 * KeyBytes
    ensures AllLowerHex(key)
    ensures DecodeHex(key) == Some(randomBytes)
  {
    EncodeHexAlphabet(randomBytes);
    DecodeEncodeHex(randomBytes);
    EncodeHex(randomBytes)
  }
}
