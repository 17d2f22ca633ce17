/** Unpadded URL-safe base64 as the disclosure codec makes it: the standard alphabet of section 4 of
    RFC 4648, then the substitutions of section 5 and the missing padding of section 3.2. */
module Base64 {
  import opened Common

  type sextet = x: int | 0 <= x < 64

  function Symbol(v: sextet): char {
    if v < 26 then 'A' + v as char
    else if v < 52 then 'a' + (v - 26) as char
    else if v < 62 then '0' + (v - 52) as char
    else if v == 62 then '+' else '/'
  }

  function ValueOf(c: char): Option<sextet> {
    if 'A' <= c <= 'Z' then Some(c as int - 'A' as int)
    else if 'a' <= c <= 'z' then Some(c as int - 'a' as int + 26)
    else if '0' <= c <= '9' then Some(c as int - '0' as int + 52)
    else if c == '+' then Some(62)
    else if c == '/' then Some(63)
    else None
  }

  // One group: three bytes make four letters, one or two bytes make a padded group.
  function Quad(bytes: seq<byte>): string
    requires 1 <= |bytes| <= 3
  {
    var first := Symbol(bytes[0] / 4);
    if |bytes| == 1 then [first, Symbol(bytes[0] % 4 * 16), '=', '=']
    else
      var second := Symbol(bytes[0] % 4 * 16 + bytes[1] / 16);
      if |bytes| == 2 then [first, second, Symbol(bytes[1] % 16 * 4), '=']
      else [first, second, Symbol(bytes[1] % 16 * 4 + bytes[2] / 64), Symbol(bytes[2] % 64)]
  }

  // The three bytes of four letters.
  function High(a: sextet, b: sextet): byte { a * 4 + b / 16 }

  function Middle(b: sextet, c: sextet): byte { b % 16 * 16 + c / 4 }

  function Low(c: sextet, d: sextet): byte { c % 4 * 64 + d }

  // The bits beyond the last whole byte are ignored, as the platform decoders do.
  function Unquad(q: string): Option<seq<byte>>
    requires |q| == 4
  {
    match (ValueOf(q[0]), ValueOf(q[1]))
    case (Some(a), Some(b)) => (
      match (ValueOf(q[2]), ValueOf(q[3]))
      case (Some(c), Some(d)) => Some([High(a, b), Middle(b, c), Low(c, d)])
      case (Some(c), None) => if q[3] == '=' then Some([High(a, b), Middle(b, c)]) else None
      case (None, _) => if q[2] == '=' && q[3] == '=' then Some([High(a, b)]) else None)
    case _ => None
  }

  function Encode(bytes: seq<byte>): string {
    if bytes == [] then ""
    else if |bytes| <= 3 then Quad(bytes)
    else Quad(bytes[..3]) + Encode(bytes[3..])
  }

  function Decode(text: string): Option<seq<byte>> {
    if text == "" then Some([])
    else if |text| < 4 then None
    else if |text| == 4 then Unquad(text)
    else match (Unquad(text[..4]), Decode(text[4..]))
      case (Some(first), Some(rest)) => if |first| == 3 then Some(first + rest) else None
      case _ => None
  }

  // text.replace(/from/g, to)
  function Replace(text: string, from: char, to: char): string {
    seq(|text|, i requires 0 <= i < |text| => if text[i] == from then to else text[i])
  }

  // text.replace(/=+$/, '')
  function Strip(text: string): string {
    if text != "" && text[|text| - 1] == '=' then Strip(text[..|text| - 1]) else text
  }

  function PadEnd(text: string, length: nat): string {
    if |text| >= length then text else text + Pads(length - |text|)
  }

  function ToBase64Url(bytes: seq<byte>): string {
    Strip(Replace(Replace(Encode(bytes), '+', '-'), '/', '_'))
  }

  function Standard(text: string): string { Replace(Replace(text, '-', '+'), '_', '/') }

  function FromBase64Url(text: string): Option<seq<byte>> {
    Decode(PadEnd(Standard(text), (|text| + 3) / 4 * 4))
  }

  lemma SymbolValue(v: sextet)
    ensures ValueOf(Symbol(v)) == Some(v) && Symbol(v) != '='
  {
  }

  lemma BitsBack(x: byte, y: byte, z: byte)
    ensures High(x / 4, x % 4 * 16 + y / 16) == x && High(x / 4, x % 4 * 16) == x
    ensures Middle(x % 4 * 16 + y / 16, y % 16 * 4 + z / 64) == y
    ensures Middle(x % 4 * 16 + y / 16, y % 16 * 4) == y
    ensures Low(y % 16 * 4 + z / 64, z % 64) == z
  {
  }

  lemma TripleBack(x: byte, y: byte, z: byte)
    ensures Unquad(Quad([x, y, z])) == Some([x, y, z])
  {
    BitsBack(x, y, z);
    SymbolValue(x / 4);
    SymbolValue(x % 4 * 16 + y / 16);
    SymbolValue(y % 16 * 4 + z / 64);
    SymbolValue(z % 64);
  }

  lemma PairBack(x: byte, y: byte)
    ensures Unquad(Quad([x, y])) == Some([x, y]) && Unquad(Quad([x])) == Some([x])
  {
    BitsBack(x, y, 0);
    SymbolValue(x / 4);
    SymbolValue(x % 4 * 16);
    SymbolValue(x % 4 * 16 + y / 16);
    SymbolValue(y % 16 * 4);
  }

  lemma QuadBack(bytes: seq<byte>)
    requires 1 <= |bytes| <= 3
    ensures Unquad(Quad(bytes)) == Some(bytes)
  {
    if |bytes| == 3 {
      TripleBack(bytes[0], bytes[1], bytes[2]);
      assert bytes == [bytes[0], bytes[1], bytes[2]];
    } else if |bytes| == 2 {
      PairBack(bytes[0], bytes[1]);
      assert bytes == [bytes[0], bytes[1]];
    } else {
      PairBack(bytes[0], 0);
      assert bytes == [bytes[0]];
    }
  }

  lemma {:induction false} DecodeEncode(bytes: seq<byte>)
    ensures Decode(Encode(bytes)) == Some(bytes)
    ensures bytes != [] ==> |Encode(bytes)| >= 4
    decreases |bytes|
  {
    if 0 < |bytes| <= 3 {
      QuadBack(bytes);
    } else if |bytes| > 3 {
      var first, rest := Quad(bytes[..3]), Encode(bytes[3..]);
      QuadBack(bytes[..3]);
      DecodeEncode(bytes[3..]);
      assert (first + rest)[..4] == first && (first + rest)[4..] == rest;
      assert bytes == bytes[..3] + bytes[3..];
    }
  }

  // The alphabet by code: A to Z, a to z, 0 to 9, plus and slash.
  function Letter(v: sextet): char {
    (if v < 26 then 65 + v else if v < 52 then 71 + v else if v < 62 then v - 4 else if v == 62 then 43 else 47) as char
  }

  lemma SymbolIsLetter(v: sextet)
    ensures Symbol(v) == Letter(v)
  {
    assert 'A' as int == 65 && 'a' as int == 97 && '0' as int == 48 && '+' as int == 43 && '/' as int == 47;
  }

  predicate Sum(a: int, b: int, c: int, d: int, x: int, y: int, z: int) {
    262144 * a + 4096 * b + 64 * c + d == 65536 * x + 256 * y + z
  }

  // Four letters carry the 24 bits of three bytes, most significant first.
  ghost predicate Carries(text: string, x: byte, y: byte, z: byte) {
    exists a: sextet, b: sextet, c: sextet, d: sextet ::
      Sum(a, b, c, d, x, y, z) && text == [Letter(a), Letter(b), Letter(c), Letter(d)]
  }

  // The last group: three letters carry two bytes and two zero bits, two letters one byte and four.
  ghost predicate CarriesLast(text: string, bytes: seq<byte>)
    requires 1 <= |bytes| <= 2
  {
    if |bytes| == 2 then
      exists a: sextet, b: sextet, c: sextet ::
        Sum(a, b, c, 0, bytes[0], bytes[1], 0) && text == [Letter(a), Letter(b), Letter(c), '=']
    else
      exists a: sextet, b: sextet :: Sum(a, b, 0, 0, bytes[0], 0, 0) && text == [Letter(a), Letter(b), '=', '=']
  }

  lemma SumsUp(x: byte, y: byte, z: byte)
    ensures Sum(x / 4, x % 4 * 16 + y / 16, y % 16 * 4 + z / 64, z % 64, x, y, z)
  {
  }

  lemma CarriesBits(text: string, a: sextet, b: sextet, c: sextet, d: sextet, x: byte, y: byte, z: byte)
    requires Sum(a, b, c, d, x, y, z)
    ensures text == [Symbol(a), Symbol(b), Symbol(c), Symbol(d)] ==> Carries(text, x, y, z)
    ensures d == 0 == z && text == [Symbol(a), Symbol(b), Symbol(c), '='] ==> CarriesLast(text, [x, y])
    ensures c == d == 0 == y == z && text == [Symbol(a), Symbol(b), '=', '='] ==> CarriesLast(text, [x])
  {
    SymbolIsLetter(a);
    SymbolIsLetter(b);
    SymbolIsLetter(c);
    SymbolIsLetter(d);
    hide Symbol, Letter, Sum;
  }

  lemma QuadCarries(bytes: seq<byte>)
    requires 1 <= |bytes| <= 3
    ensures |Quad(bytes)| == 4
    ensures |bytes| == 3 ==> Carries(Quad(bytes), bytes[0], bytes[1], bytes[2])
    ensures |bytes| < 3 ==> CarriesLast(Quad(bytes), bytes)
  {
    hide Symbol, Sum, Carries, CarriesLast;
    var x: byte, y: byte, z: byte := bytes[0], if |bytes| > 1 then bytes[1] else 0, if |bytes| > 2 then bytes[2] else 0;
    SumsUp(x, y, z);
    CarriesBits(Quad(bytes), x / 4, x % 4 * 16 + y / 16, y % 16 * 4 + z / 64, z % 64, x, y, z);
    assert |bytes| == 1 ==> bytes == [x];
    assert |bytes| == 2 ==> bytes == [x, y];
  }

  /** An encoding, bit by bit (section 4 of RFC 4648): group `k` of four letters carries the bits of group
      `k` of three bytes, and the last group those of what is left. */
  lemma {:induction false} GroupsCarry(bytes: seq<byte>, k: nat)
    requires 3 * k < |bytes|
    ensures |Encode(bytes)| >= 4 * k + 4
    ensures 3 * k + 3 <= |bytes| ==> Carries(Encode(bytes)[4 * k..4 * k + 4], bytes[3 * k], bytes[3 * k + 1], bytes[3 * k + 2])
    ensures 3 * k + 3 > |bytes| ==> CarriesLast(Encode(bytes)[4 * k..4 * k + 4], bytes[3 * k..])
    decreases k
  {
    hide Carries, CarriesLast, Quad;
    if |bytes| <= 3 {
      QuadCarries(bytes);
      assert Encode(bytes)[..4] == Encode(bytes) && bytes[0..] == bytes;
    } else {
      var first, rest := Quad(bytes[..3]), Encode(bytes[3..]);
      QuadCarries(bytes[..3]);
      if k == 0 {
        assert (first + rest)[..4] == first;
      } else {
        GroupsCarry(bytes[3..], k - 1);
        assert (first + rest)[4 * k..4 * k + 4] == rest[4 * (k - 1)..4 * (k - 1) + 4];
        assert bytes[3..][3 * (k - 1)..] == bytes[3 * k..];
      }
    }
  }

  // The letters of a text: everything but the padding.
  ghost predicate Letters(text: string) {
    forall i :: 0 <= i < |text| ==> ValueOf(text[i]).Some?
  }

  function Padding(n: nat): nat { if n % 3 == 0 then 0 else 3 - n % 3 }

  function Pads(n: nat): string { seq(n, i => '=') }

  // Letters, then the padding that fills the last group of four.
  ghost predicate Shaped(text: string, size: nat) {
    && |text| == (size + 2) / 3 * 4 && Padding(size) <= |text|
    && Letters(text[..|text| - Padding(size)])
    && text[|text| - Padding(size)..] == Pads(Padding(size))
  }

  lemma QuadShaped(bytes: seq<byte>)
    requires 1 <= |bytes| <= 3
    ensures Shaped(Quad(bytes), |bytes|)
  {
    SymbolValue(bytes[0] / 4);
    if |bytes| == 1 {
      SymbolValue(bytes[0] % 4 * 16);
    } else {
      SymbolValue(bytes[0] % 4 * 16 + bytes[1] / 16);
      if |bytes| == 2 {
        SymbolValue(bytes[1] % 16 * 4);
      } else {
        SymbolValue(bytes[1] % 16 * 4 + bytes[2] / 64);
        SymbolValue(bytes[2] % 64);
      }
    }
  }

  lemma SizesJoin(size: nat)
    ensures (size + 3 + 2) / 3 * 4 == (size + 2) / 3 * 4 + 4 && Padding(size + 3) == Padding(size)
  {
  }

  lemma JoinShaped(first: string, rest: string, size: nat)
    requires Shaped(first, 3) && Shaped(rest, size)
    ensures Shaped(first + rest, size + 3)
  {
    var all, pad := first + rest, Padding(size);
    SizesJoin(size);
    assert first[..4] == first;
    hide Padding, ValueOf;
    forall i | 0 <= i < |all| - pad ensures ValueOf(all[i]).Some? {
      if i >= 4 {
        assert all[i] == rest[..|rest| - pad][i - 4];
      } else {
        assert all[i] == first[..4][i];
      }
    }
    assert all[|all| - pad..] == rest[|rest| - pad..];
  }

  /** The shape of an encoding, for any bytes. */
  lemma {:induction false} EncodeShape(bytes: seq<byte>)
    ensures Shaped(Encode(bytes), |bytes|)
    decreases |bytes|
  {
    hide Quad, ValueOf;
    if 0 < |bytes| <= 3 {
      QuadShaped(bytes);
    } else if |bytes| > 3 {
      QuadShaped(bytes[..3]);
      EncodeShape(bytes[3..]);
      JoinShaped(Quad(bytes[..3]), Encode(bytes[3..]), |bytes| - 3);
    }
  }

  lemma {:induction false} StripPadding(text: string, pad: nat)
    requires text == "" || text[|text| - 1] != '='
    ensures Strip(text + Pads(pad)) == text
    decreases pad
  {
    var all := text + Pads(pad);
    if pad == 0 {
      assert all == text;
    } else {
      assert all[..|all| - 1] == text + Pads(pad - 1);
      StripPadding(text, pad - 1);
    }
  }

  function Url(text: string): string { Replace(Replace(text, '+', '-'), '/', '_') }

  // An encoding without its padding.
  function Unpadded(bytes: seq<byte>): string {
    EncodeShape(bytes);
    Encode(bytes)[..|Encode(bytes)| - Padding(|bytes|)]
  }

  lemma PaddingFills(n: nat)
    ensures ((4 * n + 2) / 3 + Padding(n)) % 4 == 0 && Padding(n) <= 2
    ensures (n + 2) / 3 * 4 - Padding(n) == (4 * n + 2) / 3
  {
    var k := n / 3;
    if n % 3 == 0 {
      assert 4 * n + 2 == 3 * (4 * k) + 2;
    } else if n % 3 == 1 {
      assert 4 * n + 2 == 3 * (4 * k + 2);
    } else {
      assert 4 * n + 2 == 3 * (4 * k + 3) + 1;
    }
  }

  lemma UnpaddedShape(bytes: seq<byte>)
    ensures Letters(Unpadded(bytes)) && |Unpadded(bytes)| == (4 * |bytes| + 2) / 3
    ensures Encode(bytes) == Unpadded(bytes) + Pads(Padding(|bytes|))
  {
    EncodeShape(bytes);
    PaddingFills(|bytes|);
    ShapedSplits(Encode(bytes), |bytes|);
  }

  lemma ShapedSplits(text: string, size: nat)
    requires Shaped(text, size)
    ensures text == text[..|text| - Padding(size)] + Pads(Padding(size))
  {
  }

  lemma UrlOfPadded(letters: string, pad: nat)
    requires Letters(letters)
    ensures Url(letters + Pads(pad)) == Url(letters) + Pads(pad)
    ensures Strip(Url(letters + Pads(pad))) == Url(letters)
  {
    StripPadding(Url(letters), pad);
    assert Url(letters + Pads(pad)) == Url(letters) + Pads(pad);
  }

  /** `toBase64Url` in one step: the letters, with two of them substituted, and no padding. */
  lemma ToUrlIs(bytes: seq<byte>)
    ensures ToBase64Url(bytes) == Url(Unpadded(bytes))
    ensures |ToBase64Url(bytes)| == |Unpadded(bytes)| <= |Encode(bytes)|
    ensures forall i :: 0 <= i < |Unpadded(bytes)| ==>
              ToBase64Url(bytes)[i]
              == if Encode(bytes)[i] == '+' then '-' else if Encode(bytes)[i] == '/' then '_' else Encode(bytes)[i]
  {
    UnpaddedShape(bytes);
    UrlOfPadded(Unpadded(bytes), Padding(|bytes|));
  }

  lemma UrlBack(letters: string)
    requires Letters(letters)
    ensures Standard(Url(letters)) == letters && |Url(letters)| == |letters|
  {
  }

  lemma PadBack(text: string, pad: nat)
    requires pad <= 2 && (|text| + pad) % 4 == 0
    ensures PadEnd(text, (|text| + 3) / 4 * 4) == text + Pads(pad)
  {
  }

  lemma FromUrl(text: string, letters: string, pad: nat)
    requires Standard(text) == letters && |text| == |letters| && pad <= 2 && (|letters| + pad) % 4 == 0
    ensures FromBase64Url(text) == Decode(letters + Pads(pad))
  {
    PadBack(letters, pad);
  }

  /** Round trip: any bytes come back from their unpadded URL-safe text. */
  lemma FromUrlToUrl(bytes: seq<byte>)
    ensures FromBase64Url(ToBase64Url(bytes)) == Some(bytes)
  {
    hide ToBase64Url, FromBase64Url;
    ToUrlIs(bytes);
    UnpaddedShape(bytes);
    UrlBack(Unpadded(bytes));
    PaddingFills(|bytes|);
    FromUrl(ToBase64Url(bytes), Unpadded(bytes), Padding(|bytes|));
    DecodeEncode(bytes);
  }

  // [A-Za-z0-9_-]
  predicate IsUrlLetter(c: char) {
    'A' <= c <= 'Z' || 'a' <= c <= 'z' || '0' <= c <= '9' || c == '_' || c == '-'
  }

  predicate IsUrlText(text: string) {
    forall i :: 0 <= i < |text| ==> IsUrlLetter(text[i])
  }

  /** The text of any bytes is URL-safe, and its length is the least that can carry them. */
  lemma UrlTextShape(bytes: seq<byte>)
    ensures IsUrlText(ToBase64Url(bytes))
    ensures |ToBase64Url(bytes)| == (4 * |bytes| + 2) / 3
  {
    ToUrlIs(bytes);
    UnpaddedShape(bytes);
    UrlLetters(Unpadded(bytes));
  }

  lemma UrlLetters(letters: string)
    requires Letters(letters)
    ensures IsUrlText(Url(letters)) && |Url(letters)| == |letters|
  {
  }
}
