/** Base64 as the gateway and the sealed payloads use it: RFC 4648 section 4 with padding, and the URL-safe
    alphabet of section 5 with the padding taken off (section 3.2) and put back before decoding. */
module Base64 {
  import opened Prelude

  type Byte = b: int | 0 <= b < 256
  type Sextet = d: int | 0 <= d < 64

  // --- bytes and sextets -------------------------------------------------------------------------------------

  function Sextets(data: seq<Byte>): seq<Sextet> {
    if data == [] then []
    else if |data| == 1 then [data[0] / 4, data[0] % 4 * 16]
    else if |data| == 2 then [data[0] / 4, data[0] % 4 * 16 + data[1] / 16, data[1] % 16 * 4]
    else [data[0] / 4, data[0] % 4 * 16 + data[1] / 16, data[1] % 16 * 4 + data[2] / 64, data[2] % 64] + Sextets(data[3..])
  }

  function High(a: Sextet, b: Sextet): Byte { var x: int := a; x * 4 + b / 16 }

  function Middle(b: Sextet, c: Sextet): Byte { var x: int := b; x % 16 * 16 + c / 4 }

  function Low(c: Sextet, d: Sextet): Byte { var x: int := c; x % 4 * 64 + d }

  // One sextet left over cannot hold a byte.
  function Bytes(s: seq<Sextet>): Option<seq<Byte>> {
    if s == [] then Some([])
    else if |s| == 1 then None
    else if |s| == 2 then Some([High(s[0], s[1])])
    else if |s| == 3 then Some([High(s[0], s[1]), Middle(s[1], s[2])])
    else
      match Bytes(s[4..])
      case None => None
      case Some(rest) => Some([High(s[0], s[1]), Middle(s[1], s[2]), Low(s[2], s[3])] + rest)
  }

  lemma GroupOfThree(a: Byte, b: Byte, c: Byte)
    ensures High(a / 4, a % 4 * 16 + b / 16) == a && High(a / 4, a % 4 * 16) == a
    ensures Middle(a % 4 * 16 + b / 16, b % 16 * 4 + c / 64) == b && Middle(a % 4 * 16 + b / 16, b % 16 * 4) == b
    ensures Low(b % 16 * 4 + c / 64, c % 64) == c
  {
  }

  lemma {:induction false} BytesOfSextets(data: seq<Byte>)
    ensures Bytes(Sextets(data)) == Some(data)
    ensures |Sextets(data)| == (4 * |data| + 2) / 3
  {
    hide High, Middle, Low;
    var s := Sextets(data);
    if |data| == 0 {
    } else if |data| == 1 {
      GroupOfThree(data[0], 0, 0);
      assert data == [data[0]];
    } else if |data| == 2 {
      GroupOfThree(data[0], data[1], 0);
      assert data == [data[0], data[1]];
    } else {
      GroupOfThree(data[0], data[1], data[2]);
      assert s[4..] == Sextets(data[3..]);
      BytesOfSextets(data[3..]);
      assert data == [data[0], data[1], data[2]] + data[3..];
    }
  }

  // --- characters --------------------------------------------------------------------------------------------

  datatype Alphabet = Standard | UrlSafe

  function CharOf(alphabet: Alphabet, d: Sextet): char {
    if d < 26 then 'A' + d as char
    else if d < 52 then 'a' + (d - 26) as char
    else if d < 62 then '0' + (d - 52) as char
    else if d == 62 then (if alphabet == Standard then '+' else '-')
    else (if alphabet == Standard then '/' else '_')
  }

  // `n` characters in a row.
  function Row(first: char, n: nat): (r: string)
    requires first as int + n < 128
    ensures |r| == n && forall i :: 0 <= i < n ==> r[i] as int == first as int + i
  {
    seq(n, i requires 0 <= i < n => (first as int + i) as char)
  }

  // The tables of RFC 4648, sections 4 and 5.
  function Letters(alphabet: Alphabet): string {
    Row('A', 26) + Row('a', 26) + Row('0', 10) + if alphabet == Standard then "+/" else "-_"
  }

  lemma TablesAre(alphabet: Alphabet, d: Sextet)
    ensures |Letters(alphabet)| == 64 && CharOf(alphabet, d) == Letters(alphabet)[d]
  {
  }

  function DigitOf(alphabet: Alphabet, c: char): Option<Sextet> {
    if 'A' <= c <= 'Z' then Some(c as int - 'A' as int)
    else if 'a' <= c <= 'z' then Some(c as int - 'a' as int + 26)
    else if '0' <= c <= '9' then Some(c as int - '0' as int + 52)
    else if c == (if alphabet == Standard then '+' else '-') then Some(62)
    else if c == (if alphabet == Standard then '/' else '_') then Some(63)
    else None
  }

  lemma CharsAreDigits(alphabet: Alphabet, d: Sextet)
    ensures DigitOf(alphabet, CharOf(alphabet, d)) == Some(d) && CharOf(alphabet, d) != '='
  {
  }

  function Chars(alphabet: Alphabet, s: seq<Sextet>): (text: string)
    ensures |text| == |s| && '=' !in text
  {
    if s == [] then ""
    else
      CharsAreDigits(alphabet, s[0]);
      [CharOf(alphabet, s[0])] + Chars(alphabet, s[1..])
  }

  function Digits(alphabet: Alphabet, text: string): Option<seq<Sextet>> {
    if text == "" then Some([])
    else
      match (DigitOf(alphabet, text[0]), Digits(alphabet, text[1..]))
      case (Some(d), Some(rest)) => Some([d] + rest)
      case _ => None
  }

  lemma {:induction false} DigitsOfChars(alphabet: Alphabet, s: seq<Sextet>)
    ensures Digits(alphabet, Chars(alphabet, s)) == Some(s)
  {
    if s != [] {
      CharsAreDigits(alphabet, s[0]);
      DigitsOfChars(alphabet, s[1..]);
      assert Chars(alphabet, s)[1..] == Chars(alphabet, s[1..]);
      assert s == [s[0]] + s[1..];
    }
  }

  // --- padding -----------------------------------------------------------------------------------------------

  function Equals(n: nat): string { seq(n, _ => '=') }

  // `s.rstrip("=")`
  function Stripped(s: string): string {
    if s != "" && s[|s| - 1] == '=' then Stripped(s[..|s| - 1]) else s
  }

  lemma {:induction false} StripsPadding(text: string, n: nat)
    requires '=' !in text
    ensures Stripped(text + Equals(n)) == text
    decreases n
  {
    var s := text + Equals(n);
    if n > 0 {
      assert s[..|s| - 1] == text + Equals(n - 1);
      StripsPadding(text, n - 1);
    } else {
      assert s == text;
    }
  }

  // The fill that makes a length a multiple of four.
  function Fill(n: nat): nat { (4 - n % 4) % 4 }

  // --- the codecs ----------------------------------------------------------------------------------------------

  // `b64encode`
  function Encode(alphabet: Alphabet, data: seq<Byte>): string {
    var text := Chars(alphabet, Sextets(data));
    text + Equals(Fill(|text|))
  }

  // `b64decode` of text in the alphabet: whole groups of four, at most two of the last being padding.
  function Decode(alphabet: Alphabet, text: string): Option<seq<Byte>> {
    var body := Stripped(text);
    if |text| % 4 != 0 || |text| - |body| > 2 then None
    else
      match Digits(alphabet, body)
      case None => None
      case Some(digits) => Bytes(digits)
  }

  function EncodeUnpadded(data: seq<Byte>): string { Stripped(Encode(UrlSafe, data)) }

  function DecodeUnpadded(text: string): Option<seq<Byte>> { Decode(UrlSafe, text + Equals(Fill(|text|))) }

  lemma FillIsShort(n: nat)
    ensures Fill((4 * n + 2) / 3) <= 2 && ((4 * n + 2) / 3 + Fill((4 * n + 2) / 3)) % 4 == 0
  {
    var k, r := n / 3, n % 3;
    assert n == 3 * k + r;
    assert (4 * n + 2) / 3 == 4 * k + (4 * r + 2) / 3;
  }

  // Every byte string comes back from its padded encoding, in either alphabet.
  lemma DecodeEncode(alphabet: Alphabet, data: seq<Byte>)
    ensures Decode(alphabet, Encode(alphabet, data)) == Some(data)
    ensures |Encode(alphabet, data)| % 4 == 0
  {
    hide Chars, Digits, Bytes, Sextets, Stripped, Fill;
    BytesOfSextets(data);
    FillIsShort(|data|);
    DigitsOfChars(alphabet, Sextets(data));
    StripsPadding(Chars(alphabet, Sextets(data)), Fill((4 * |data| + 2) / 3));
  }

  // And from the form the sealed payloads store, which has no padding at all and a length set by the data's.
  lemma DecodeEncodeUnpadded(data: seq<Byte>)
    ensures DecodeUnpadded(EncodeUnpadded(data)) == Some(data)
    ensures '=' !in EncodeUnpadded(data) && |EncodeUnpadded(data)| == (4 * |data| + 2) / 3
  {
    hide Chars, Digits, Bytes, Sextets, Stripped, Fill, Decode;
    BytesOfSextets(data);
    var text := Chars(UrlSafe, Sextets(data));
    StripsPadding(text, Fill(|text|));
    DecodeEncode(UrlSafe, data);
    assert EncodeUnpadded(data) == text;
  }

  lemma DigitsAreChars(alphabet: Alphabet, c: char)
    ensures DigitOf(alphabet, c).Some? ==> c == CharOf(alphabet, DigitOf(alphabet, c).value)
  {
  }

  // Text is refused when its length is not a multiple of four, when more than two characters of it are padding, or when
  // a character before the padding is not in the table.
  lemma BadTextRefused(alphabet: Alphabet, text: string, n: nat, k: nat)
    requires '=' !in text
    requires (|text| + n) % 4 != 0 || n > 2 || (k < |text| && forall d: Sextet :: text[k] != CharOf(alphabet, d))
    ensures Decode(alphabet, text + Equals(n)).None?
  {
    StripsPadding(text, n);
    if k < |text| && forall d: Sextet :: text[k] != CharOf(alphabet, d) { NoDigits(alphabet, text, k); }
    hide Digits, Stripped;
  }

  lemma {:induction false} NoDigits(alphabet: Alphabet, text: string, k: nat)
    requires k < |text| && forall d: Sextet :: text[k] != CharOf(alphabet, d)
    ensures Digits(alphabet, text).None?
  {
    if k == 0 {
      DigitsAreChars(alphabet, text[0]);
    } else {
      NoDigits(alphabet, text[1..], k - 1);
    }
  }

  // Different byte strings have different encodings.
  lemma EncodingsDiffer(a: seq<Byte>, b: seq<Byte>)
    requires EncodeUnpadded(a) == EncodeUnpadded(b)
    ensures a == b
  {
    DecodeEncodeUnpadded(a);
    DecodeEncodeUnpadded(b);
  }
}
