/** One-time codes of the end-to-end tests: base32 (section 6 of RFC 4648) and the truncation of a digest
    (section 5.3 of RFC 4226, section 4.2 of RFC 6238). */
module Totp {
  import opened Common
  import opened Characters
  import opened Decimal

  // ----- bits as text -----

  /** A number in so many binary digits. */
  function Bin(v: nat, width: nat): (s: string)
    ensures |s| == width
  {
    if width == 0 then "" else Bin(v / 2, width - 1) + [if v % 2 == 0 then '0' else '1']
  }

  predicate IsBits(s: string) {
    forall k :: 0 <= k < |s| ==> s[k] == '0' || s[k] == '1'
  }

  /** `parseInt(s, 2)` of digits: the longest start that is binary. */
  function ParseBits(s: string, n: nat): nat
    requires n <= |s|
  {
    if n == 0 then 0
    else if BitsBefore(s, n) then 2 * ParseBits(s, n - 1) + (if s[n - 1] == '1' then 1 else 0)
    else ParseBits(s, n - 1)
  }

  predicate BitsBefore(s: string, n: nat)
    requires n <= |s|
  {
    n == 0 || ((s[n - 1] == '0' || s[n - 1] == '1') && BitsBefore(s, n - 1))
  }

  function Pow2(n: nat): (p: nat)
    ensures p >= 1
  {
    if n == 0 then 1 else 2 * Pow2(n - 1)
  }

  lemma {:induction false} BinValue(v: nat, width: nat)
    requires v < Pow2(width)
    ensures BitsBefore(Bin(v, width), width) && ParseBits(Bin(v, width), width) == v
  {
    if width > 0 {
      BinValue(v / 2, width - 1);
      ParsePrefix(Bin(v / 2, width - 1), Bin(v, width), width - 1);
    }
  }

  lemma {:induction false} ParsePrefix(s: string, t: string, n: nat)
    requires n <= |s| && n <= |t| && s[..n] == t[..n]
    ensures BitsBefore(s, n) == BitsBefore(t, n) && ParseBits(s, n) == ParseBits(t, n)
  {
    if n > 0 {
      assert s[n - 1] == s[..n][n - 1] && t[n - 1] == t[..n][n - 1];
      assert s[..n - 1] == s[..n][..n - 1] && t[..n - 1] == t[..n][..n - 1];
      ParsePrefix(s, t, n - 1);
    }
  }

  lemma Cut<T>(s: seq<T>, m: nat, n: nat)
    requires m <= n <= |s|
    ensures s[..n] == s[..m] + s[m..n]
  {
  }

  lemma BinStep(v: nat, bit: nat, width: nat)
    requires bit < 2
    ensures Bin(2 * v + bit, width + 1) == Bin(v, width) + [if bit == 0 then '0' else '1']
  {
  }

  lemma {:induction false} ValueBin(s: string, n: nat)
    requires n <= |s| && BitsBefore(s, n)
    ensures ParseBits(s, n) < Pow2(n) && Bin(ParseBits(s, n), n) == s[..n]
  {
    if n > 0 {
      ValueBin(s, n - 1);
      BinStep(ParseBits(s, n - 1), if s[n - 1] == '1' then 1 else 0, n - 1);
      Cut(s, n - 1, n);
    }
  }

  // ----- base32 -----

  const ALPHABET := "ABCDEFGHIJKLMNOPQRSTUVWXYZ234567"

  /** `indexOf` in the alphabet. */
  function Index(c: char): int {
    if 'A' <= c <= 'Z' then c as int - 65 else if '2' <= c <= '7' then c as int - 50 + 26 else -1
  }

  /** The letter for five bits. */
  function Letter(v: nat): (c: char)
    requires v < 32
    ensures Index(c) == v && c != '='
  {
    if v < 26 then (65 + v) as char else (24 + v) as char
  }

  /** The place of a character in the alphabet. */
  lemma IndexIsPlace(c: char)
    ensures if c in ALPHABET then 0 <= Index(c) < 32 && ALPHABET[Index(c)] == c else Index(c) == -1
  {
    if 0 <= Index(c) {
      LetterAtPlace(Index(c));
      assert c == Letter(Index(c));
    }
    forall v: nat | v < 32 && ALPHABET[v] == c ensures Index(c) == v {
      LetterAtPlace(v);
    }
  }

  lemma LetterAtPlace(v: nat)
    requires v < 32
    ensures ALPHABET[v] == Letter(v)
  {
  }

  /** The text without its padding. */
  function Unpadded(s: string): string {
    if s != "" && s[|s| - 1] == '=' then Unpadded(s[..|s| - 1]) else s
  }

  /** The five digits of a character; `-1` for one that is not in the alphabet. */
  function CharBits(c: char): (s: string)
    ensures |s| == 5
  {
    var v := Index(UpperChar(c));
    if v >= 0 then Bin(v, 5) else "000-1"
  }

  function TextBits(s: string, n: nat): (bits: string)
    requires n <= |s|
    ensures |bits| == 5 * n
  {
    if n == 0 then "" else TextBits(s, n - 1) + CharBits(s[n - 1])
  }

  /** `parseInt` of eight digits, as a byte of a buffer. */
  function Octet(s: string): byte
    requires |s| == 8
  {
    if s[0] == '-' then (256 - ParseBits(s[1..], 7) % 256) % 256 else ParseBits(s, 8) % 256
  }

  /** The first `n` bytes of the digits; digits left over are dropped. */
  function Octets(bits: string, n: nat): (b: bytes)
    requires 8 * n <= |bits|
    ensures |b| == n
  {
    if n == 0 then [] else Octets(bits, n - 1) + [Octet(bits[8 * n - 8..8 * n])]
  }

  method Base32Decode(secret: string) returns (b: bytes)
    ensures b == Decoded(secret) && |b| == 5 * |Unpadded(secret)| / 8
  {
    var text, bits := Unpadded(secret), "";
    for n := 0 to |text|
      invariant bits == TextBits(text, n)
    {
      bits := bits + CharBits(text[n]);
    }
    b := [];
    for n := 0 to |bits| / 8
      invariant b == Octets(bits, n)
    {
      b := b + [Octet(bits[8 * n..8 * n + 8])];
    }
  }

  function Decoded(secret: string): bytes {
    var bits := TextBits(Unpadded(secret), |Unpadded(secret)|);
    Octets(bits, |bits| / 8)
  }

  // ----- the encoding of RFC 4648, and that decoding undoes it -----

  function DataBits(d: bytes, n: nat): (bits: string)
    requires n <= |d|
    ensures |bits| == 8 * n
  {
    if n == 0 then "" else DataBits(d, n - 1) + Bin(d[n - 1], 8)
  }

  function Zeros(n: nat): (s: string)
    ensures |s| == n && forall k :: 0 <= k < n ==> s[k] == '0'
  {
    if n == 0 then "" else Zeros(n - 1) + "0"
  }

  /** How many zero bits fill the last group of five. */
  function Fill(n: nat): nat { (5 - n % 5) % 5 }

  function Groups(bits: string, n: nat): (s: string)
    requires 5 * n <= |bits|
    ensures |s| == n
  {
    if n == 0 then "" else Groups(bits, n - 1) + [Letter(ParseBits(bits[5 * n - 5..5 * n], 5) % 32)]
  }

  /** The bits of the data, filled up to groups of five. */
  function AllBits(d: bytes): (bits: string)
    ensures 8 * |d| <= |bits| < 8 * |d| + 5 && |bits| % 5 == 0
  {
    DataBits(d, |d|) + Zeros(Fill(8 * |d|))
  }

  /** The characters without padding. */
  function Encoded(d: bytes): string {
    Groups(AllBits(d), |AllBits(d)| / 5)
  }

  lemma {:induction false} DataAreBits(d: bytes, n: nat)
    requires n <= |d|
    ensures IsBits(DataBits(d, n))
  {
    if n > 0 {
      DataAreBits(d, n - 1);
      BinIsBits(d[n - 1], 8);
    }
  }

  lemma {:induction false} BinIsBits(v: nat, width: nat)
    ensures IsBits(Bin(v, width))
  {
    if width > 0 {
      BinIsBits(v / 2, width - 1);
    }
  }

  lemma {:induction false} AllBitsBefore(s: string, n: nat)
    requires n <= |s| && IsBits(s)
    ensures BitsBefore(s, n)
  {
    if n > 0 {
      AllBitsBefore(s, n - 1);
    }
  }

  lemma LetterBits(v: nat, c: char)
    requires v < 32 && UpperChar(c) == Letter(v)
    ensures CharBits(c) == Bin(v, 5)
  {
  }

  lemma GroupRead(group: string, c: char)
    requires |group| == 5 && IsBits(group) && UpperChar(c) == Letter(ParseBits(group, 5) % 32)
    ensures CharBits(c) == group
  {
    AllBitsBefore(group, 5);
    ValueBin(group, 5);
    var v := ParseBits(group, 5);
    assert v < Pow2(5) == 32;
    LetterBits(v, c);
    Whole(group);
  }

  lemma Whole<T>(s: seq<T>)
    ensures s[..|s|] == s
  {
  }

  lemma {:induction false} BitsOfCharacters(bits: string, n: nat, text: string)
    requires 5 * n <= |bits| && |text| >= n
    requires forall k {:trigger text[k]} :: 0 <= k < n ==> CharBits(text[k]) == bits[5 * k..5 * k + 5]
    ensures TextBits(text, n) == bits[..5 * n]
  {
    if n > 0 {
      BitsOfCharacters(bits, n - 1, text);
      var c := text[n - 1];
      assert CharBits(c) == bits[5 * (n - 1)..5 * (n - 1) + 5];
      Cut(bits, 5 * (n - 1), 5 * (n - 1) + 5);
    }
  }

  lemma {:induction false} GroupAt(bits: string, k: nat, n: nat)
    requires k < n && 5 * n <= |bits|
    ensures Groups(bits, n)[k] == Letter(ParseBits(bits[5 * k..5 * k + 5], 5) % 32)
  {
    if k < n - 1 {
      GroupAt(bits, k, n - 1);
    }
  }

  /** The characters of the groups give the bits back, in whatever case they are written. */
  lemma GroupsRead(bits: string, n: nat, text: string)
    requires 5 * n <= |bits| && IsBits(bits) && |text| >= n
    requires forall k :: 0 <= k < n ==> UpperChar(text[k]) == Groups(bits, n)[k]
    ensures TextBits(text, n) == bits[..5 * n]
  {
    forall k {:trigger text[k]} | 0 <= k < n ensures CharBits(text[k]) == bits[5 * k..5 * k + 5] {
      GroupAt(bits, k, n);
      GroupRead(bits[5 * k..5 * k + 5], text[k]);
    }
    BitsOfCharacters(bits, n, text);
  }

  lemma OctetOfBits(s: string, v: byte)
    requires |s| == 8 && s[0] != '-' && ParseBits(s, 8) == v
    ensures Octet(s) == v
  {
  }

  lemma OctetRead(v: byte, s: string)
    requires s == Bin(v, 8)
    ensures Octet(s) == v
  {
    assert Pow2(8) == 256;
    BinValue(v, 8);
    BinIsBits(v, 8);
    OctetOfBits(s, v);
  }

  lemma {:induction false} OctetsRead(d: bytes, n: nat, bits: string)
    requires n <= |d| && 8 * n <= |bits| && bits[..8 * n] == DataBits(d, n)
    ensures Octets(bits, n) == d[..n]
  {
    if n > 0 {
      assert bits[..8 * (n - 1)] == bits[..8 * n][..8 * (n - 1)];
      OctetsRead(d, n - 1, bits);
      assert bits[8 * n - 8..8 * n] == bits[..8 * n][8 * n - 8..] == Bin(d[n - 1], 8);
      OctetRead(d[n - 1], bits[8 * n - 8..8 * n]);
      assert d[..n] == d[..n - 1] + [d[n - 1]];
    }
  }

  lemma {:induction false} UnpaddedOf(text: string, padding: nat)
    requires text == "" || text[|text| - 1] != '='
    ensures Unpadded(text + Equals(padding)) == text
  {
    if padding > 0 {
      assert (text + Equals(padding))[..|text| + padding - 1] == text + Equals(padding - 1);
      UnpaddedOf(text, padding - 1);
    } else {
      assert text + Equals(0) == text;
    }
  }

  function Equals(n: nat): (s: string)
    ensures |s| == n
  {
    if n == 0 then "" else Equals(n - 1) + "="
  }

  lemma TextBitsRead(bits: string, text: string)
    requires |bits| == 5 * |text| && IsBits(bits)
    requires forall k :: 0 <= k < |text| ==> UpperChar(text[k]) == Groups(bits, |text|)[k]
    ensures TextBits(text, |text|) == bits && (text == "" || text[|text| - 1] != '=')
  {
    GroupsRead(bits, |text|, text);
    assert bits[..5 * |text|] == bits;
    if text != "" {
      LastIsLetter(bits, |text|);
    }
  }

  lemma AllAreBits(d: bytes)
    ensures IsBits(AllBits(d)) && AllBits(d)[..8 * |d|] == DataBits(d, |d|)
  {
    DataAreBits(d, |d|);
  }

  lemma {:induction false} DecodedBits(text: string, padding: nat, bits: string, d: bytes)
    requires bits == TextBits(text, |text|) && (text == "" || text[|text| - 1] != '=')
    requires 8 * |d| <= |bits| < 8 * |d| + 8 && bits[..8 * |d|] == DataBits(d, |d|)
    ensures Decoded(text + Equals(padding)) == d
  {
    UnpaddedOf(text, padding);
    OctetsRead(d, |d|, bits);
    Whole(d);
    assert |bits| / 8 == |d|;
    DecodedIs(text + Equals(padding), text, bits);
  }

  lemma DecodedIs(secret: string, text: string, bits: string)
    requires Unpadded(secret) == text && bits == TextBits(text, |text|)
    ensures Decoded(secret) == Octets(bits, |bits| / 8)
  {
  }

  /** Decoding undoes encoding for all bytes, in either case and with any padding. */
  lemma DecodeEncode(d: bytes, text: string, padding: nat)
    requires |text| == |Encoded(d)| && forall k :: 0 <= k < |text| ==> UpperChar(text[k]) == Encoded(d)[k]
    ensures Decoded(text + Equals(padding)) == d
  {
    AllAreBits(d);
    TextBitsRead(AllBits(d), text);
    DecodedBits(text, padding, AllBits(d), d);
  }

  lemma LastIsLetter(bits: string, n: nat)
    requires 5 * n <= |bits| && n > 0
    ensures Groups(bits, n)[n - 1] != '='
  {
  }

  // ----- the code -----

  /** Eight bytes of a step, the highest first. */
  function Counter(step: nat, n: nat): (b: bytes)
    ensures |b| == n
  {
    if n == 0 then [] else Counter(step / 256, n - 1) + [step % 256]
  }

  function BigEndian(b: bytes, n: nat): nat
    requires n <= |b|
  {
    if n == 0 then 0 else 256 * BigEndian(b, n - 1) + b[n - 1]
  }

  lemma {:induction false} CounterValue(step: nat, n: nat, b: bytes)
    requires n <= |b| && b[..n] == Counter(step, n) && step < Pow256(n)
    ensures BigEndian(b, n) == step
  {
    if n > 0 {
      assert b[..n - 1] == b[..n][..n - 1] == Counter(step / 256, n - 1);
      assert b[n - 1] == b[..n][n - 1];
      CounterValue(step / 256, n - 1, b);
    }
  }

  function Pow256(n: nat): nat {
    if n == 0 then 1 else 256 * Pow256(n - 1)
  }

  /** The 32 bits at `at`, the highest first. */
  function WordAt(b: bytes, at: nat): nat
    requires at + 4 <= |b|
  {
    0x100_0000 * (b[at] as int) + 0x1_0000 * (b[at + 1] as int) + 0x100 * (b[at + 2] as int) + b[at + 3] as int
  }

  lemma FourBytesAre(b: bytes, at: nat)
    requires at + 4 <= |b|
    ensures BigEndian(b[at..][..4], 4) == WordAt(b, at)
  {
    var w := b[at..][..4];
    assert BigEndian(w, 1) == w[0];
    assert BigEndian(w, 2) == 256 * BigEndian(w, 1) + w[1];
    assert BigEndian(w, 3) == 256 * BigEndian(w, 2) + w[2];
  }

  /** Six digits of a value, the highest first. */
  predicate Spells(code: string, v: nat) {
    && |code| == 6
    && code[0] as int == 48 + v / 100000 % 10 && code[1] as int == 48 + v / 10000 % 10 && code[2] as int == 48 + v / 1000 % 10
    && code[3] as int == 48 + v / 100 % 10 && code[4] as int == 48 + v / 10 % 10 && code[5] as int == 48 + v % 10
  }

  lemma {:induction false} DigitLast(s: string, n: nat)
    requires 0 < n <= |s| && DigitsIn(s, 0, n)
    ensures s[n - 1] as int == 48 + ValueIn(s, 0, n) % 10 && ValueIn(s, 0, n - 1) == ValueIn(s, 0, n) / 10 && DigitsIn(s, 0, n - 1)
  {
  }

  lemma SpelledOut(code: string, v: nat)
    requires |code| == 6 && DigitsIn(code, 0, 6) && ValueIn(code, 0, 6) == v
    ensures Spells(code, v)
  {
    DigitLast(code, 6);
    DigitLast(code, 5);
    DigitLast(code, 4);
    DigitLast(code, 3);
    DigitLast(code, 2);
    DigitLast(code, 1);
    Tenths(v);
  }

  lemma Tenths(v: nat)
    ensures v / 10 / 10 == v / 100 && v / 10 / 10 / 10 == v / 1000 && v / 10 / 10 / 10 / 10 == v / 10000
    ensures v / 10 / 10 / 10 / 10 / 10 == v / 100000
  {
  }

  /** The code of a step: none for a step that is no unsigned number of 64 bits. The offset into the
      digest never leaves its 20 bytes, and the code has six decimal digits, which spell the low six
      digits of 31 bits of the digest. */
  method TotpAt(secret: string, step: int, hmac: (bytes, bytes) -> bytes) returns (code: Option<string>)
    requires forall key, data :: |hmac(key, data)| == 20
    ensures code.Some? <==> 0 <= step < Pow256(8)
    ensures code.Some? ==>
      var digest := hmac(Decoded(secret), Counter(step, 8));
      && Spells(code.value, WordAt(digest, digest[19] % 16) % 0x8000_0000 % 1_000_000)
      && |code.value| == 6 && DigitsIn(code.value, 0, 6)
      && ValueIn(code.value, 0, 6) == BigEndian(digest[digest[19] % 16..][..4], 4) % 0x8000_0000 % 1_000_000
  {
    if step < 0 || step >= Pow256(8) {
      return None;
    }
    var key := Base32Decode(secret);
    var digest := hmac(key, Counter(step, 8));
    var offset := digest[|digest| - 1] % 16;
    var value := ReadUInt32BE(digest, offset);
    value := value % 0x8000_0000;
    var text := Num(value % 1_000_000);
    SixDigits(value % 1_000_000);
    code := Some(Padded(text, 6));
    FourBytesAre(digest, offset);
    SpelledOut(code.value, value % 1_000_000);
  }

  method ReadUInt32BE(b: bytes, at: nat) returns (v: nat)
    requires at + 4 <= |b|
    ensures v == BigEndian(b[at..][..4], 4)
  {
    v := 0;
    for k := 0 to 4
      invariant v == BigEndian(b[at..][..4], k)
    {
      v := 256 * v + b[at + k];
    }
  }

  lemma SixDigits(v: nat)
    requires v < 1_000_000
    ensures |Padded(Num(v), 6)| == 6 && DigitsIn(Padded(Num(v), 6), 0, 6) && ValueIn(Padded(Num(v), 6), 0, 6) == v
  {
    assert Pow10(6) == 1_000_000;
    NumLength(v, 6);
    NumValueAlone(v);
    PaddedValue(Num(v), 6);
  }
}
