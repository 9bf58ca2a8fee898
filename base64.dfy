/** The Base64 encoding of section 4 of RFC 4648, as `QByteArray::toBase64`
    produces it (standard alphabet, `=` padding), together with the decoder
    that undoes it. The client uses it for the AUTH PLAIN credentials of
    RFC 4616. The encoding is taken in two layers: bytes to six-bit values,
    then six-bit values to alphabet symbols. */
module Base64 {
  import opened Outcomes

  newtype byte = x: int | 0 <= x < 256

  predicate IsSextet(v: int) { 0 <= v < 64 }

  predicate AllSextets(v: seq<int>) { forall i :: 0 <= i < |v| ==> IsSextet(v[i]) }

  /** The character for a six-bit value: A-Z, a-z, 0-9, '+', '/'. */
  function Symbol(v: int): (c: char)
    requires IsSextet(v)
  {
    if v < 26 then ('A' as int + v) as char
    else if v < 52 then ('a' as int + (v - 26)) as char
    else if v < 62 then ('0' as int + (v - 52)) as char
    else if v == 62 then '+'
    else '/'
  }

  predicate IsSymbol(c: char)
  {
    'A' <= c <= 'Z' || 'a' <= c <= 'z' || '0' <= c <= '9' || c == '+' || c == '/'
  }

  /** The six-bit value a symbol stands for. */
  function Value(c: char): (v: int)
    requires IsSymbol(c)
    ensures IsSextet(v)
  {
    if 'A' <= c <= 'Z' then c as int - 'A' as int
    else if 'a' <= c <= 'z' then c as int - 'a' as int + 26
    else if '0' <= c <= '9' then c as int - '0' as int + 52
    else if c == '+' then 62
    else 63
  }

  lemma SymbolValue(v: int)
    requires IsSextet(v)
    ensures IsSymbol(Symbol(v)) && Value(Symbol(v)) == v
  {
  }

  /** Bytes as six-bit values: each group of three bytes gives four values,
      most significant bits first; a final group of two bytes gives three
      values and one of one byte gives two, padded with zero bits. */
  function Sextets(data: seq<byte>): (v: seq<int>)
    ensures AllSextets(v)
    ensures |v| == |data| / 3 * 4 + (if |data| % 3 == 0 then 0 else |data| % 3 + 1)
    decreases |data|
  {
    if |data| >= 3 then
      var a, b, c := data[0] as int, data[1] as int, data[2] as int;
      [a / 4, a % 4 * 16 + b / 16, b % 16 * 4 + c / 64, c % 64] + Sextets(data[3..])
    else if |data| == 2 then
      var a, b := data[0] as int, data[1] as int;
      [a / 4, a % 4 * 16 + b / 16, b % 16 * 4]
    else if |data| == 1 then
      [data[0] as int / 4, data[0] as int % 4 * 16]
    else []
  }

  /** Six-bit values back to bytes: four values give three bytes, a final
      three give two and a final two give one. */
  function Unsextets(v: seq<int>): seq<byte>
    requires AllSextets(v)
    decreases |v|
  {
    if |v| >= 4 then
      [(v[0] * 4 + v[1] / 16) as byte, (v[1] % 16 * 16 + v[2] / 4) as byte, (v[2] % 4 * 64 + v[3]) as byte]
      + Unsextets(v[4..])
    else if |v| == 3 then [(v[0] * 4 + v[1] / 16) as byte, (v[1] % 16 * 16 + v[2] / 4) as byte]
    else if |v| == 2 then [(v[0] * 4 + v[1] / 16) as byte]
    else []
  }

  function SymbolsOf(v: seq<int>): (t: string)
    requires AllSextets(v)
    ensures |t| == |v|
  {
    seq(|v|, i requires 0 <= i < |v| => Symbol(v[i]))
  }

  predicate AllSymbols(t: string) { forall i :: 0 <= i < |t| ==> IsSymbol(t[i]) }

  function ValuesOf(t: string): (v: seq<int>)
    requires AllSymbols(t)
    ensures |v| == |t| && AllSextets(v)
  {
    seq(|t|, i requires 0 <= i < |t| => Value(t[i]))
  }

  /** The `=` characters that complete the last group of four. */
  function Padding(n: nat): string
  {
    if n % 3 == 1 then "==" else if n % 3 == 2 then "=" else ""
  }

  function Encode(data: seq<byte>): (t: string)
  {
    SymbolsOf(Sextets(data)) + Padding(|data|)
  }

  /** The number of `=` characters at the end of `t`, at most two. */
  function PadCount(t: string): (n: nat)
    ensures n <= 2 && n <= |t|
  {
    if |t| >= 2 && t[|t| - 1] == '=' && t[|t| - 2] == '=' then 2
    else if |t| >= 1 && t[|t| - 1] == '=' then 1
    else 0
  }

  /** The inverse of `Encode`: `None` for text whose length is not a
      multiple of four or that holds a character outside the alphabet
      before its padding. */
  function Decode(t: string): (r: Option<seq<byte>>)
  {
    var body := t[..|t| - PadCount(t)];
    if |t| % 4 != 0 || !AllSymbols(body) then None
    else Some(Unsextets(ValuesOf(body)))
  }

  /** Regrouping the six-bit values of three bytes gives back the bytes. */
  lemma Regroup(a: int, b: int, c: int)
    requires 0 <= a < 256 && 0 <= b < 256 && 0 <= c < 256
    ensures var v0, v1, v2, v3 := a / 4, a % 4 * 16 + b / 16, b % 16 * 4 + c / 64, c % 64;
      v0 * 4 + v1 / 16 == a && v1 % 16 * 16 + v2 / 4 == b && v2 % 4 * 64 + v3 == c
  {
    Split16(a % 4, b / 16);
    Split4(b % 16, c / 64);
  }

  lemma Split16(x: int, y: int)
    requires 0 <= y < 16
    ensures (x * 16 + y) / 16 == x && (x * 16 + y) % 16 == y
  {
  }

  lemma Split4(x: int, y: int)
    requires 0 <= y < 4
    ensures (x * 4 + y) / 4 == x && (x * 4 + y) % 4 == y
  {
  }

  /** The six-bit values of some bytes give back those bytes. */
  lemma {:induction false} UnsextetsSextets(data: seq<byte>)
    ensures Unsextets(Sextets(data)) == data
    decreases |data|
  {
    if |data| >= 3 {
      UnsextetsSextets(data[3..]);
      UnsextetsStep(data[0], data[1], data[2], data[3..]);
      assert data == [data[0], data[1], data[2]] + data[3..];
    } else if |data| == 2 {
      Regroup(data[0] as int, data[1] as int, 0);
      assert data == [data[0], data[1]];
    } else if |data| == 1 {
      Regroup(data[0] as int, 0, 0);
      assert data == [data[0]];
    }
  }

  lemma UnsextetsStep(a: byte, b: byte, c: byte, rest: seq<byte>)
    requires Unsextets(Sextets(rest)) == rest
    ensures Unsextets(Sextets([a, b, c] + rest)) == [a, b, c] + rest
  {
    var data := [a, b, c] + rest;
    assert data[3..] == rest;
    var v := Sextets(data);
    Regroup(a as int, b as int, c as int);
    assert v[4..] == Sextets(rest);
  }

  /** Reading the symbols of some six-bit values gives back the values. */
  lemma ValuesSymbols(v: seq<int>)
    requires AllSextets(v)
    ensures AllSymbols(SymbolsOf(v)) && ValuesOf(SymbolsOf(v)) == v
  {
    var t := SymbolsOf(v);
    forall i | 0 <= i < |v|
      ensures IsSymbol(t[i]) && Value(t[i]) == v[i]
    {
      SymbolValue(v[i]);
    }
  }

  /** The encoding is four characters per started group of three bytes. */
  lemma EncodeLength(data: seq<byte>)
    ensures |Encode(data)| == 4 * ((|data| + 2) / 3)
  {
  }

  /** Decoding the symbols of some six-bit values followed by the padding
      that completes the last group gives the bytes of those values. */
  lemma DecodeSymbols(v: seq<int>, pad: string)
    requires AllSextets(v)
    requires pad == "" || pad == "=" || pad == "=="
    requires (|v| + |pad|) % 4 == 0
    ensures Decode(SymbolsOf(v) + pad) == Some(Unsextets(v))
  {
    var s := SymbolsOf(v);
    var t := s + pad;
    ValuesSymbols(v);
    PadCountAfterSymbols(s, pad);
    assert |t| % 4 == 0 && |t| - PadCount(t) == |s|;
    assert t[..|s|] == s;
    assert AllSymbols(s) && ValuesOf(s) == v;
  }

  /** The padding count finds exactly the padding after alphabet symbols. */
  lemma PadCountAfterSymbols(s: string, pad: string)
    requires AllSymbols(s)
    requires pad == "" || pad == "=" || pad == "=="
    ensures PadCount(s + pad) == |pad|
  {
    var t := s + pad;
    if |s| > 0 {
      assert t[|s| - 1] == s[|s| - 1];
    }
  }

  /** Decoding an encoding gives back the bytes. */
  lemma DecodeEncode(data: seq<byte>)
    ensures Decode(Encode(data)) == Some(data)
  {
    DecodeSymbols(Sextets(data), Padding(|data|));
    UnsextetsSextets(data);
  }

  /** The encoding uses the alphabet and the padding character only, so it
      holds no space and no line break. */
  lemma EncodeAlphabet(data: seq<byte>)
    ensures forall i :: 0 <= i < |Encode(data)| ==> IsSymbol(Encode(data)[i]) || Encode(data)[i] == '='
  {
    ValuesSymbols(Sextets(data));
  }
}
