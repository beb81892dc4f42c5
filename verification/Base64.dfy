/** base64 as encoding/base64 reads and writes it: StdEncoding, RawStdEncoding and RawURLEncoding
    (sections 3.2, 4 and 5 of RFC 4648). The decoder skips line breaks and ignores trailing bits. */
module Base64 {
  import opened Wrappers

  type Byte = b: nat | b < 256

  datatype Encoding = Encoding(url: bool, padded: bool)

  const STD := Encoding(false, true)
  const RAW_STD := Encoding(false, false)
  const RAW_URL := Encoding(true, false)

  function Digit(e: Encoding, v: nat): (c: char)
    requires v < 64
    ensures c != '=' && c != '$' && c != ',' && c != '\n' && c != '\r'
  {
    if v < 26 then 'A' + v as char
    else if v < 52 then 'a' + (v - 26) as char
    else if v < 62 then '0' + (v - 52) as char
    else if v == 62 then (if e.url then '-' else '+')
    else if e.url then '_' else '/'
  }

  function DigitValue(e: Encoding, c: char): (v: Option<nat>)
    ensures v.Some? ==> v.value < 64
  {
    if 'A' <= c <= 'Z' then Some((c - 'A') as nat)
    else if 'a' <= c <= 'z' then Some((c - 'a') as nat + 26)
    else if '0' <= c <= '9' then Some((c - '0') as nat + 52)
    else if c == (if e.url then '-' else '+') then Some(62)
    else if c == (if e.url then '_' else '/') then Some(63)
    else None
  }

  const UPPER := "ABCDEFGHIJKLMNOPQRSTUVWXYZ"
  const LOWER := "abcdefghijklmnopqrstuvwxyz"
  const DECIMAL := "0123456789"

  lemma UpperCase(c: char)
    ensures c in UPPER <==> 'A' <= c <= 'Z'
  {
    if 'A' <= c <= 'Z' {
      assert UPPER[c as int - 'A' as int] == c;
    }
  }

  lemma LowerCase(c: char)
    ensures c in LOWER <==> 'a' <= c <= 'z'
  {
    if 'a' <= c <= 'z' {
      assert LOWER[c as int - 'a' as int] == c;
    }
  }

  lemma DecimalDigit(c: char)
    ensures c in DECIMAL <==> '0' <= c <= '9'
  {
    if '0' <= c <= '9' {
      assert DECIMAL[c as int - '0' as int] == c;
    }
  }

  lemma TableAt(upper: string, lower: string, decimal: string, last: string, v: nat)
    requires |upper| == 26 && |lower| == 26 && |decimal| == 10 && |last| == 2 && v < 64
    ensures var table := upper + lower + decimal + last;
            |table| == 64 && table[v] ==
            if v < 26 then upper[v] else if v < 52 then lower[v - 26] else if v < 62 then decimal[v - 52]
            else last[v - 62]
  {
  }

  lemma TableSizes()
    ensures |UPPER| == 26 && |LOWER| == 26 && |DECIMAL| == 10
  {
  }

  lemma UpperDigit(e: Encoding, v: nat)
    requires v < 26
    ensures |UPPER| == 26 && Digit(e, v) == UPPER[v]
  {
    assert UPPER[v] == 'A' + v as char;
  }

  lemma LowerDigit(e: Encoding, v: nat)
    requires 26 <= v < 52
    ensures |LOWER| == 26 && Digit(e, v) == LOWER[v - 26]
  {
    assert LOWER[v - 26] == 'a' + (v - 26) as char;
  }

  lemma LastDigits(e: Encoding, v: nat)
    requires 52 <= v < 64
    ensures |DECIMAL| == 10 && Digit(e, v) == if v < 62 then DECIMAL[v - 52] else (if e.url then "-_" else "+/")[v - 62]
  {
    if v < 62 {
      assert DECIMAL[v - 52] == '0' + (v - 52) as char;
    }
  }

  /** The digits are those of the standard's two tables. */
  lemma DigitExactly(e: Encoding, v: nat)
    requires v < 64
    ensures var table := UPPER + LOWER + DECIMAL + (if e.url then "-_" else "+/");
            |table| == 64 && Digit(e, v) == table[v]
  {
    hide UPPER, LOWER, DECIMAL, Digit;
    TableSizes();
    TableAt(UPPER, LOWER, DECIMAL, if e.url then "-_" else "+/", v);
    if v < 26 {
      UpperDigit(e, v);
    } else if v < 52 {
      LowerDigit(e, v);
    } else {
      LastDigits(e, v);
    }
  }

  lemma DigitInverts(e: Encoding, v: nat)
    requires v < 64
    ensures DigitValue(e, Digit(e, v)) == Some(v)
  {
  }

  lemma DigitValueExactly(e: Encoding, c: char, v: nat)
    ensures DigitValue(e, c) == Some(v) <==> v < 64 && c == Digit(e, v)
  {
    if v < 64 {
      DigitInverts(e, v);
    }
  }

  function Encode(e: Encoding, data: seq<Byte>): string
  {
    if |data| == 0 then ""
    else if |data| == 1 then
      [Digit(e, data[0] / 4), Digit(e, data[0] % 4 * 16)] + (if e.padded then "==" else "")
    else if |data| == 2 then
      [Digit(e, data[0] / 4), Digit(e, data[0] % 4 * 16 + data[1] / 16), Digit(e, data[1] % 16 * 4)]
      + (if e.padded then "=" else "")
    else
      Group(e, data[0], data[1], data[2]) + Encode(e, data[3..])
  }

  function Group(e: Encoding, a: Byte, b: Byte, c: Byte): string
  {
    [Digit(e, a / 4), Digit(e, a % 4 * 16 + b / 16), Digit(e, b % 16 * 4 + c / 64), Digit(e, c % 64)]
  }

  function WithoutLineBreaks(text: string): string
  {
    if text == "" then ""
    else if text[0] == '\n' || text[0] == '\r' then WithoutLineBreaks(text[1..])
    else [text[0]] + WithoutLineBreaks(text[1..])
  }

  function Decode(e: Encoding, text: string): Option<seq<Byte>>
  {
    DecodeClean(e, WithoutLineBreaks(text))
  }

  function DecodeClean(e: Encoding, text: string): Option<seq<Byte>>
  {
    if |text| == 0 then Some([])
    else if |text| == 1 then None
    else
      var v0, v1 := DigitValue(e, text[0]), DigitValue(e, text[1]);
      if v0 == None || v1 == None then None
      else if text[2..] == (if e.padded then "==" else "") then
        Some([v0.value * 4 + v1.value / 16])
      else if |text| == 2 then None
      else
        var v2 := DigitValue(e, text[2]);
        if v2 == None then None
        else if text[3..] == (if e.padded then "=" else "") then
          Some([v0.value * 4 + v1.value / 16, v1.value % 16 * 16 + v2.value / 4])
        else if |text| == 3 then None
        else
          var v3 := DigitValue(e, text[3]);
          var rest := DecodeClean(e, text[4..]);
          if v3 == None || rest == None then None
          else
            Some([v0.value * 4 + v1.value / 16, v1.value % 16 * 16 + v2.value / 4, v2.value % 4 * 64 + v3.value]
                 + rest.value)
  }

  lemma {:induction false} EncodeCharacters(e: Encoding, data: seq<Byte>)
    ensures forall i :: 0 <= i < |Encode(e, data)| ==>
                          var c := Encode(e, data)[i];
                            c != '$' && c != ',' && c != '\n' && c != '\r' && (c == '=' ==> e.padded)
  {
    if |data| > 2 {
      EncodeCharacters(e, data[3..]);
    }
  }

  lemma {:induction false} CleanTextUnchanged(text: string)
    requires forall i :: 0 <= i < |text| ==> text[i] != '\n' && text[i] != '\r'
    ensures WithoutLineBreaks(text) == text
  {
    if text != "" {
      CleanTextUnchanged(text[1..]);
    }
  }

  lemma GroupInverts(e: Encoding, a: Byte, b: Byte, c: Byte, rest: string)
    requires DecodeClean(e, rest).Some?
    ensures DecodeClean(e, Group(e, a, b, c) + rest) == Some([a, b, c] + DecodeClean(e, rest).value)
  {
    var d0, d1, d2, d3 := a / 4, a % 4 * 16 + b / 16, b % 16 * 4 + c / 64, c % 64;
    DigitInverts(e, d0);
    DigitInverts(e, d1);
    DigitInverts(e, d2);
    DigitInverts(e, d3);
    var text := Group(e, a, b, c) + rest;
    assert text[..4] == Group(e, a, b, c) && text[4..] == rest;
    assert text[2..][0] == Digit(e, d2) && text[3..][0] == Digit(e, d3);
    assert d0 * 4 + d1 / 16 == a;
    assert d1 % 16 * 16 + d2 / 4 == b;
    assert d2 % 4 * 64 + d3 == c;
  }

  lemma TailInverts(e: Encoding, data: seq<Byte>)
    requires |data| < 3
    ensures DecodeClean(e, Encode(e, data)) == Some(data)
  {
    if |data| == 1 {
      var d0, d1 := data[0] / 4, data[0] % 4 * 16;
      DigitInverts(e, d0);
      DigitInverts(e, d1);
      var tail := if e.padded then "==" else "";
      assert Encode(e, data) == [Digit(e, d0), Digit(e, d1)] + tail;
      assert Encode(e, data)[2..] == tail;
      assert d0 * 4 + d1 / 16 == data[0];
      assert [data[0]] == data;
    } else if |data| == 2 {
      var d0, d1, d2 := data[0] / 4, data[0] % 4 * 16 + data[1] / 16, data[1] % 16 * 4;
      DigitInverts(e, d0);
      DigitInverts(e, d1);
      DigitInverts(e, d2);
      var tail := if e.padded then "=" else "";
      var text := Encode(e, data);
      assert text == [Digit(e, d0), Digit(e, d1), Digit(e, d2)] + tail;
      assert text[2..][0] == Digit(e, d2);
      assert text[2..] != if e.padded then "==" else "";
      assert text[3..] == tail;
      assert d0 * 4 + d1 / 16 == data[0];
      assert d1 % 16 * 16 + d2 / 4 == data[1];
      assert [data[0], data[1]] == data;
    }
  }

  lemma {:induction false} DecodeCleanInverts(e: Encoding, data: seq<Byte>)
    ensures DecodeClean(e, Encode(e, data)) == Some(data)
  {
    if |data| < 3 {
      TailInverts(e, data);
    } else {
      DecodeCleanInverts(e, data[3..]);
      GroupInverts(e, data[0], data[1], data[2], Encode(e, data[3..]));
      assert data == [data[0], data[1], data[2]] + data[3..];
    }
  }

  /** Decoding undoes encoding, for every alphabet and with or without padding. */
  lemma DecodeInverts(e: Encoding, data: seq<Byte>)
    ensures Decode(e, Encode(e, data)) == Some(data)
  {
    EncodeCharacters(e, data);
    CleanTextUnchanged(Encode(e, data));
    DecodeCleanInverts(e, data);
  }

  /** The check a WireGuard public key must pass: 32 bytes, spelled the way the encoder spells them. */
  predicate ValidPublicKey(value: string)
  {
    var decoded := Decode(STD, value);
    decoded.Some? && |decoded.value| == 32 && Encode(STD, decoded.value) == value
  }

  /** The accepted texts are exactly the encodings of 32-byte strings, so no two texts name one key. */
  lemma ValidPublicKeyExactly(value: string)
    ensures ValidPublicKey(value) <==> exists key: seq<Byte> :: |key| == 32 && value == Encode(STD, key)
  {
    if key: seq<Byte> :| |key| == 32 && value == Encode(STD, key) {
      DecodeInverts(STD, key);
    }
  }

  // ---- The written form ----

  lemma Sixty(q: nat, r: nat)
    requires r < 64
    ensures (q * 64 + r) / 64 == q && (q * 64 + r) % 64 == r
  {
  }

  lemma FourDigits(d0: nat, d1: nat, d2: nat, d3: nat)
    requires d0 < 64 && d1 < 64 && d2 < 64 && d3 < 64
    ensures var x := ((d0 * 64 + d1) * 64 + d2) * 64 + d3;
            d0 == x / 0x4_0000 && d1 == x / 0x1000 % 64 && d2 == x / 64 % 64 && d3 == x % 64
  {
    var y := d0 * 64 + d1;
    var z := y * 64 + d2;
    var x := z * 64 + d3;
    Sixty(d0, d1);
    Sixty(y, d2);
    Sixty(z, d3);
    assert x / 0x1000 == x / 64 / 64 && x / 0x4_0000 == x / 0x1000 / 64;
  }

  lemma SixBits(a: Byte, b: Byte, c: Byte)
    ensures var x := a * 0x1_0000 + b * 0x100 + c;
            && a / 4 == x / 0x4_0000
            && a % 4 * 16 + b / 16 == x / 0x1000 % 64
            && b % 16 * 4 + c / 64 == x / 64 % 64
            && c % 64 == x % 64
  {
    var d0, d1, d2, d3 := a / 4, a % 4 * 16 + b / 16, b % 16 * 4 + c / 64, c % 64;
    assert a == a / 4 * 4 + a % 4 && b == b / 16 * 16 + b % 16 && c == c / 64 * 64 + c % 64;
    assert a * 0x1_0000 + b * 0x100 + c == ((d0 * 64 + d1) * 64 + d2) * 64 + d3;
    FourDigits(d0, d1, d2, d3);
  }

  /** Three bytes are written as the four base-64 digits of one 24-bit number. */
  lemma GroupIsNumber(e: Encoding, a: Byte, b: Byte, c: Byte)
    ensures var x := a * 0x1_0000 + b * 0x100 + c;
            Group(e, a, b, c) ==
            [Digit(e, x / 0x4_0000), Digit(e, x / 0x1000 % 64), Digit(e, x / 64 % 64), Digit(e, x % 64)]
  {
    hide Digit;
    SixBits(a, b, c);
  }

  lemma TailBits(a: Byte, b: Byte)
    ensures a / 4 == a * 16 / 64 && a % 4 * 16 == a * 16 % 64
    ensures var x := (a * 256 + b) * 4;
            a / 4 == x / 0x1000 && a % 4 * 16 + b / 16 == x / 64 % 64 && b % 16 * 4 == x % 64
  {
    var d0, d1, d2 := a / 4, a % 4 * 16 + b / 16, b % 16 * 4;
    assert a == a / 4 * 4 + a % 4 && b == b / 16 * 16 + b % 16;
    assert a * 16 == d0 * 64 + a % 4 * 16;
    Sixty(d0, a % 4 * 16);
    assert (a * 256 + b) * 4 == ((0 * 64 + d0) * 64 + d1) * 64 + d2;
    FourDigits(0, d0, d1, d2);
    assert (a * 256 + b) * 4 / 0x1000 < 64;
  }

  /** One or two last bytes are written as the digits that hold them, filled up with zero bits, and padded to four
      characters where the encoding pads. */
  lemma TailWritten(e: Encoding, a: Byte, b: Byte)
    ensures Encode(e, [a]) == [Digit(e, a * 16 / 64), Digit(e, a * 16 % 64)] + (if e.padded then "==" else "")
    ensures var x := (a * 256 + b) * 4;
            Encode(e, [a, b]) ==
            [Digit(e, x / 0x1000), Digit(e, x / 64 % 64), Digit(e, x % 64)] + (if e.padded then "=" else "")
  {
    hide Digit;
    TailBits(a, b);
  }

  /** Each full group adds four characters, and what is left is written behind. */
  lemma {:induction false} EncodeLength(e: Encoding, data: seq<Byte>)
    ensures |Encode(e, data)| == if e.padded then (|data| + 2) / 3 * 4 else (|data| * 4 + 2) / 3
  {
    hide Digit;
    if |data| > 2 {
      EncodeLength(e, data[3..]);
      var n := |data[3..]|;
      assert (n + 3 + 2) / 3 * 4 == (n + 2) / 3 * 4 + 4 && ((n + 3) * 4 + 2) / 3 == (n * 4 + 2) / 3 + 4;
      assert Encode(e, data) == Group(e, data[0], data[1], data[2]) + Encode(e, data[3..]);
    }
  }

  /** The decoder skips line breaks wherever they stand, and drops the bits behind the last full byte. */
  lemma {:induction false} LineBreaksSkipped(front: string, back: string)
    ensures WithoutLineBreaks(front + "\n" + back) == WithoutLineBreaks(front + back)
    ensures WithoutLineBreaks(front + "\r" + back) == WithoutLineBreaks(front + back)
  {
    if front == "" {
      assert ("\n" + back)[1..] == back && ("\r" + back)[1..] == back && front + back == back;
      assert front + "\n" + back == "\n" + back && front + "\r" + back == "\r" + back;
    } else {
      LineBreaksSkipped(front[1..], back);
      assert (front + "\n" + back)[1..] == front[1..] + "\n" + back;
      assert (front + "\r" + back)[1..] == front[1..] + "\r" + back;
      assert (front + back)[1..] == front[1..] + back;
    }
  }

  lemma DecodeLenient(e: Encoding, front: string, back: string, v: nat, w: nat)
    requires v < 64 && w < 64
    ensures Decode(e, front + "\n" + back) == Decode(e, front + back) == Decode(e, front + "\r" + back)
    ensures DecodeClean(e, [Digit(e, v), Digit(e, w)] + (if e.padded then "==" else "")) == Some([v * 4 + w / 16])
  {
    LineBreaksSkipped(front, back);
    DigitInverts(e, v);
    DigitInverts(e, w);
    var tail := if e.padded then "==" else "";
    var text := [Digit(e, v), Digit(e, w)] + tail;
    assert text[2..] == tail;
  }

  function Alphabet(e: Encoding): string
  {
    UPPER + LOWER + DECIMAL + (if e.url then "-_" else "+/")
  }

  lemma DigitInAlphabet(e: Encoding, v: nat)
    requires v < 64
    ensures Digit(e, v) in Alphabet(e)
  {
    DigitExactly(e, v);
    hide UPPER, LOWER, DECIMAL, Digit;
  }

  lemma AlphabetDigit(e: Encoding, c: char) returns (v: nat)
    requires c in Alphabet(e)
    ensures v < 64 && c == Digit(e, v)
  {
    DigitExactly(e, 0);
    v :| 0 <= v < |Alphabet(e)| && Alphabet(e)[v] == c;
    DigitExactly(e, v);
    hide UPPER, LOWER, DECIMAL, Digit;
  }

  lemma {:induction false} InAlphabet(e: Encoding, data: seq<Byte>)
    ensures forall c :: c in Encode(e, data) ==> c in Alphabet(e) || (e.padded && c == '=')
  {
    hide Digit, Alphabet;
    forall v: nat | v < 64
      ensures Digit(e, v) in Alphabet(e)
    {
      DigitInAlphabet(e, v);
    }
    if |data| > 2 {
      InAlphabet(e, data[3..]);
      assert Encode(e, data) == Group(e, data[0], data[1], data[2]) + Encode(e, data[3..]);
    }
  }

  /** The three encodings in use: keys are padded and in the standard alphabet, hashes not padded and in the same,
      tokens not padded and in the alphabet for addresses and file names. */
  lemma EncodingsInUse(data: seq<Byte>)
    ensures forall c :: c in Encode(STD, data) ==> c in UPPER + LOWER + DECIMAL + "+/" || c == '='
    ensures forall c :: c in Encode(RAW_STD, data) ==> c in UPPER + LOWER + DECIMAL + "+/"
    ensures forall c :: c in Encode(RAW_URL, data) ==> c in UPPER + LOWER + DECIMAL + "-_"
    ensures |Encode(STD, data)| == (|data| + 2) / 3 * 4
    ensures |Encode(RAW_STD, data)| == |Encode(RAW_URL, data)| == (|data| * 4 + 2) / 3
  {
    InAlphabet(STD, data);
    InAlphabet(RAW_STD, data);
    InAlphabet(RAW_URL, data);
    EncodeLength(STD, data);
    EncodeLength(RAW_STD, data);
    EncodeLength(RAW_URL, data);
    hide UPPER, LOWER, DECIMAL, Encode;
  }

  // ---- The texts of keys ----

  /** Digits up to one padding character, the last of them with two zero bits at its end. */
  ghost predicate PaddedOnce(text: string)
  {
    && |text| >= 4 && |text| % 4 == 0 && text[|text| - 1] == '='
    && (forall i :: 0 <= i < |text| - 1 ==> text[i] in Alphabet(STD))
    && exists v: nat :: v < 16 && text[|text| - 2] == Digit(STD, v * 4)
  }

  lemma Regrouped(v0: nat, v1: nat, v2: nat, v3: nat) returns (a: Byte, b: Byte, c: Byte)
    requires v0 < 64 && v1 < 64 && v2 < 64 && v3 < 64
    ensures a / 4 == v0 && a % 4 * 16 + b / 16 == v1 && b % 16 * 4 + c / 64 == v2 && c % 64 == v3
    ensures v2 % 4 == 0 && v3 == 0 ==> c == 0
  {
    a, b, c := v0 * 4 + v1 / 16, v1 % 16 * 16 + v2 / 4, v2 % 4 * 64 + v3;
  }

  lemma FirstGroup(text: string) returns (a: Byte, b: Byte, c: Byte)
    requires |text| >= 4 && forall i :: 0 <= i < 4 ==> text[i] in Alphabet(STD)
    ensures Group(STD, a, b, c) == text[..4]
  {
    var v0 := AlphabetDigit(STD, text[0]);
    var v1 := AlphabetDigit(STD, text[1]);
    var v2 := AlphabetDigit(STD, text[2]);
    var v3 := AlphabetDigit(STD, text[3]);
    hide Digit, Alphabet;
    a, b, c := Regrouped(v0, v1, v2, v3);
  }

  lemma TwoBytes(v0: nat, v1: nat, w: nat) returns (data: seq<Byte>)
    requires v0 < 64 && v1 < 64 && w < 16
    ensures |data| == 2 && Encode(STD, data) == [Digit(STD, v0), Digit(STD, v1), Digit(STD, w * 4), '=']
  {
    hide Digit;
    var a, b, c := Regrouped(v0, v1, w * 4, 0);
    data := [a, b];
    assert Encode(STD, data) ==
           [Digit(STD, a / 4), Digit(STD, a % 4 * 16 + b / 16), Digit(STD, b % 16 * 4)] + "=";
  }

  lemma LastGroup(text: string) returns (data: seq<Byte>)
    requires PaddedOnce(text) && |text| == 4
    ensures |data| == 2 && Encode(STD, data) == text
  {
    hide Encode, Digit, Alphabet;
    var v0 := AlphabetDigit(STD, text[0]);
    var v1 := AlphabetDigit(STD, text[1]);
    var w: nat :| w < 16 && text[2] == Digit(STD, w * 4);
    data := TwoBytes(v0, v1, w);
  }

  lemma PaddedRest(text: string)
    requires PaddedOnce(text) && |text| > 4
    ensures PaddedOnce(text[4..])
  {
    hide Digit, Alphabet;
    var rest := text[4..];
    assert forall i :: 0 <= i < |rest| ==> rest[i] == text[i + 4];
    assert rest[|rest| - 2] == text[|text| - 2] && rest[|rest| - 1] == text[|text| - 1];
  }

  /** Every such text is the encoding of some bytes. */
  lemma {:induction false} PaddedOnceEncodes(text: string) returns (data: seq<Byte>)
    requires PaddedOnce(text)
    ensures |data| == |text| / 4 * 3 - 1 && Encode(STD, data) == text
  {
    if |text| == 4 {
      data := LastGroup(text);
    } else {
      PaddedRest(text);
      var a, b, c := FirstGroup(text);
      var rest := PaddedOnceEncodes(text[4..]);
      hide Digit, Alphabet, Group, PaddedOnce;
      data := [a, b, c] + rest;
      assert data[3..] == rest;
      assert text == text[..4] + text[4..];
    }
  }

  lemma LastPadsOnce(a: Byte, b: Byte)
    ensures PaddedOnce(Encode(STD, [a, b]))
  {
    DigitInAlphabet(STD, a / 4);
    DigitInAlphabet(STD, a % 4 * 16 + b / 16);
    DigitInAlphabet(STD, b % 16 * 4);
    hide Digit, Alphabet;
    var text := [Digit(STD, a / 4), Digit(STD, a % 4 * 16 + b / 16), Digit(STD, b % 16 * 4), '='];
    assert Encode(STD, [a, b]) == text;
    assert text[|text| - 2] == Digit(STD, b % 16 * 4);
  }

  lemma GroupInAlphabet(a: Byte, b: Byte, c: Byte)
    ensures forall i :: 0 <= i < 4 ==> Group(STD, a, b, c)[i] in Alphabet(STD)
  {
    DigitInAlphabet(STD, a / 4);
    DigitInAlphabet(STD, a % 4 * 16 + b / 16);
    DigitInAlphabet(STD, b % 16 * 4 + c / 64);
    DigitInAlphabet(STD, c % 64);
    hide Digit, Alphabet;
  }

  lemma LongerPadsOnce(group: string, rest: string)
    requires |group| == 4 && (forall i :: 0 <= i < 4 ==> group[i] in Alphabet(STD)) && PaddedOnce(rest)
    ensures PaddedOnce(group + rest)
  {
    hide Digit, Alphabet;
    var text := group + rest;
    assert text[|text| - 2] == rest[|rest| - 2];
  }

  lemma {:induction false} EncodePadsOnce(data: seq<Byte>)
    requires |data| % 3 == 2
    ensures PaddedOnce(Encode(STD, data))
  {
    if |data| == 2 {
      LastPadsOnce(data[0], data[1]);
      assert data == [data[0], data[1]];
    } else {
      EncodePadsOnce(data[3..]);
      GroupInAlphabet(data[0], data[1], data[2]);
      LongerPadsOnce(Group(STD, data[0], data[1], data[2]), Encode(STD, data[3..]));
      hide Digit, Alphabet, PaddedOnce;
    }
  }

  lemma EveryFourth(c: char)
    ensures (exists v: nat :: v < 16 && c == Digit(STD, v * 4)) <==> c in "AEIMQUYcgkosw048"
  {
    var list := "AEIMQUYcgkosw048";
    forall v: nat | v < 16
      ensures list[v] == Digit(STD, v * 4)
    {
      FourthDigit(v);
    }
    hide Digit;
    if c in list {
      var v :| 0 <= v < |list| && list[v] == c;
      assert c == Digit(STD, v * 4);
    }
  }

  lemma FourthDigit(v: nat)
    requires v < 16
    ensures "AEIMQUYcgkosw048"[v] == Digit(STD, v * 4)
  {
  }

  lemma PaddedKeys(value: string)
    ensures ValidPublicKey(value) <==> |value| == 44 && PaddedOnce(value)
  {
    ValidPublicKeyExactly(value);
    hide Digit, PaddedOnce, Encode, ValidPublicKey;
    if ValidPublicKey(value) {
      var key: seq<Byte> :| |key| == 32 && value == Encode(STD, key);
      EncodePadsOnce(key);
      EncodeLength(STD, key);
    } else if |value| == 44 && PaddedOnce(value) {
      var key := PaddedOnceEncodes(value);
    }
  }

  lemma PaddedOnceText(value: string)
    requires |value| == 44
    ensures PaddedOnce(value) <==>
            && value[43] == '=' && value[42] in "AEIMQUYcgkosw048"
            && forall i :: 0 <= i < 42 ==> value[i] in Alphabet(STD)
  {
    hide Digit, Alphabet;
    EveryFourth(value[42]);
    if v: nat :| v < 16 && value[42] == Digit(STD, v * 4) {
      DigitInAlphabet(STD, v * 4);
    }
    assert (exists v: nat :: v < 16 && value[42] == Digit(STD, v * 4)) ==> value[42] in Alphabet(STD);
  }

  /** The texts of public keys: 42 digits of the standard alphabet, one of every fourth digit, and an equals sign. */
  lemma PublicKeyTextExactly(value: string)
    ensures ValidPublicKey(value) <==>
            && |value| == 44 && value[43] == '=' && value[42] in "AEIMQUYcgkosw048"
            && forall i :: 0 <= i < 42 ==> value[i] in UPPER + LOWER + DECIMAL + "+/"
  {
    PaddedKeys(value);
    if |value| == 44 {
      PaddedOnceText(value);
    }
    hide PaddedOnce, ValidPublicKey, UPPER, LOWER, DECIMAL;
  }
}
