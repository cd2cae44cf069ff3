/** Base64 as the parser of the package list decodes it: which digests it accepts that no file ever has. */
module Base64 {
  import opened Common
  import opened Characters
  import opened PackageList
  import opened PackageSync

  // ----- characters -----

  /** The six bits of a character, 64 for the padding, `-1` for any other. */
  function Value(c: char): (v: int)
    ensures -1 <= v <= 64 && (v >= 0 ==> IsAlnum(c) || c == '+' || c == '/' || c == '=')
  {
    if 'A' <= c <= 'Z' then c as int - 65
    else if 'a' <= c <= 'z' then c as int - 71
    else if '0' <= c <= '9' then c as int + 4
    else if c == '+' then 62
    else if c == '/' then 63
    else if c == '=' then 64
    else -1
  }

  function Digit(v: nat): (c: char)
    requires v <= 64
    ensures Value(c) == v
  {
    if v < 26 then (65 + v) as char
    else if v < 52 then (71 + v) as char
    else if v < 62 then (v - 4) as char
    else if v == 62 then '+'
    else if v == 63 then '/'
    else '='
  }

  type values = v: seq<nat> | forall k :: 0 <= k < |v| ==> v[k] <= 64

  function Spell(v: values): (s: string)
    ensures |s| == |v| && forall k :: 0 <= k < |v| ==> s[k] == Digit(v[k])
  {
    if v == [] then "" else [Digit(v[0])] + Spell(v[1..])
  }

  function Values(s: string): (v: Option<values>)
    ensures v.Some? ==> |v.value| == |s| && forall k :: 0 <= k < |s| ==> v.value[k] == Value(s[k])
    ensures v.None? ==> exists k :: 0 <= k < |s| && Value(s[k]) < 0
  {
    if s == "" then Some([])
    else if Value(s[0]) < 0 || Values(s[1..]) == None then None
    else Some([Value(s[0])] + Values(s[1..]).value)
  }

  lemma ValuesOfSpelled(v: values)
    ensures Values(Spell(v)) == Some(v)
  {
    assert Values(Spell(v)).Some?;
    assert Values(Spell(v)).value == v;
  }

  lemma DigitOfValue(c: char)
    requires Value(c) >= 0
    ensures Digit(Value(c)) == c
  {
  }

  lemma SpelledValues(s: string)
    requires Values(s).Some?
    ensures Spell(Values(s).value) == s
  {
    forall k | 0 <= k < |s| ensures Spell(Values(s).value)[k] == s[k] {
      DigitOfValue(s[k]);
    }
  }

  // ----- groups of three bytes -----

  function Pack(data: bytes): values {
    if |data| == 0 then []
    else if |data| == 1 then [data[0] / 4, data[0] % 4 * 16, 64, 64]
    else if |data| == 2 then [data[0] / 4, data[0] % 4 * 16 + data[1] / 16, data[1] % 16 * 4, 64]
    else [data[0] / 4, data[0] % 4 * 16 + data[1] / 16, data[1] % 16 * 4 + data[2] / 64, data[2] % 64] + Pack(data[3..])
  }

  function Encode(data: bytes): string { Spell(Pack(data)) }

  /** What a group of four gives; only the last may be padded. */
  function Group(x: nat, y: nat, z: nat, w: nat, last: bool): (r: Option<bytes>)
    requires x <= 64 && y <= 64 && z <= 64 && w <= 64
  {
    if x == 64 || y == 64 then None
    else if z < 64 && w < 64 then Some([x * 4 + y / 16, y % 16 * 16 + z / 4, z % 4 * 64 + w])
    else if last && z < 64 then Some([x * 4 + y / 16, y % 16 * 16 + z / 4])
    else if last && w == 64 then Some([x * 4 + y / 16])
    else None
  }

  /** The bits of the last digit that make no whole byte are dropped, whatever they are. */
  function Unpack(v: values): Option<bytes> {
    if v == [] then Some([])
    else if |v| < 4 then None
    else match Group(v[0], v[1], v[2], v[3], |v| == 4)
      case None => None
      case Some(first) =>
        match Unpack(v[4..])
        case None => None
        case Some(rest) => Some(first + rest)
  }

  /** Strict decoding: no other characters, no group cut short, nothing after the padding. */
  function Decode(s: string): Option<bytes> {
    match Values(s)
    case None => None
    case Some(v) => Unpack(v)
  }

  /** The bits of the last digit before the padding that make no whole byte. */
  function LeftOver(v: values): nat {
    if |v| < 4 || v[|v| - 1] < 64 then 0
    else if v[|v| - 2] < 64 then v[|v| - 2] % 4
    else v[|v| - 3] % 16
  }

  /** Three bytes as four numbers below 64, and back. */
  lemma BytesRegroup(a: byte, b: byte, c: byte)
    ensures var x, y, z, w := a / 4, a % 4 * 16 + b / 16, b % 16 * 4 + c / 64, c % 64;
            && x < 64 && y < 64 && z < 64
            && x * 4 + y / 16 == a && y % 16 * 16 + z / 4 == b && z % 4 * 64 + w == c
  {
    var y, z := a % 4 * 16 + b / 16, b % 16 * 4 + c / 64;
    assert y / 16 == a % 4 && y % 16 == b / 16;
    assert z / 4 == b % 16 && z % 4 == c / 64;
  }

  lemma DigitsRegroup(x: nat, y: nat, z: nat, w: nat)
    requires x < 64 && y < 64 && z < 64 && w < 64
    ensures var a, b, c := x * 4 + y / 16, y % 16 * 16 + z / 4, z % 4 * 64 + w;
            && a < 256 && b < 256 && c < 256
            && a / 4 == x && a % 4 * 16 + b / 16 == y && b % 16 * 4 + c / 64 == z && c % 64 == w
  {
    var a, b, c := x * 4 + y / 16, y % 16 * 16 + z / 4, z % 4 * 64 + w;
    assert a % 4 == y / 16 && b / 16 == y % 16;
    assert b % 16 == z / 4 && c / 64 == z % 4;
  }

  lemma GroupOfBytes(a: byte, b: byte, c: byte, last: bool)
    ensures Group(a / 4, a % 4 * 16 + b / 16, b % 16 * 4 + c / 64, c % 64, last) == Some([a, b, c])
  {
    BytesRegroup(a, b, c);
  }

  lemma GroupOfTwo(b: byte, c: byte)
    ensures Group(b / 4, b % 4 * 16 + c / 16, c % 16 * 4, 64, true) == Some([b, c])
  {
    BytesRegroup(b, c, 0);
  }

  lemma GroupOfOne(c: byte)
    ensures Group(c / 4, c % 4 * 16, 64, 64, true) == Some([c])
  {
    BytesRegroup(c, 0, 0);
  }

  lemma UnpackMore(v: values, rest: values, r: bytes)
    requires |v| == 4 && Group(v[0], v[1], v[2], v[3], rest == []) == Some(r)
    ensures Unpack(v + rest) == if Unpack(rest) == None then None else Some(r + Unpack(rest).value)
  {
    assert (v + rest)[4..] == rest;
  }

  lemma UnpackLast(v: values)
    requires |v| == 4
    ensures Unpack(v) == Group(v[0], v[1], v[2], v[3], true)
  {
    assert v[4..] == [];
    var g := Group(v[0], v[1], v[2], v[3], true);
    assert g.Some? ==> g.value + [] == g.value;
  }

  lemma {:induction false} UnpackPack(data: bytes)
    ensures Unpack(Pack(data)) == Some(data)
  {
    if |data| >= 3 {
      UnpackPack(data[3..]);
      PackedMore(data[0], data[1], data[2], data[3..]);
      assert data == [data[0], data[1], data[2]] + data[3..];
    } else if |data| == 2 {
      PackedTwo(data[0], data[1]);
      assert data == [data[0], data[1]];
    } else if |data| == 1 {
      PackedOne(data[0]);
      assert data == [data[0]];
    }
  }

  lemma PackedMore(a: byte, b: byte, c: byte, more: bytes)
    requires Unpack(Pack(more)) == Some(more)
    ensures Unpack(Pack([a, b, c] + more)) == Some([a, b, c] + more)
  {
    PackMore(a, b, c, more);
    GroupOfBytes(a, b, c, Pack(more) == []);
    UnpackMore([a / 4, a % 4 * 16 + b / 16, b % 16 * 4 + c / 64, c % 64], Pack(more), [a, b, c]);
  }

  lemma PackedTwo(a: byte, b: byte)
    ensures Unpack(Pack([a, b])) == Some([a, b])
  {
    assert Pack([a, b]) == [a / 4, a % 4 * 16 + b / 16, b % 16 * 4, 64];
    UnpackedTwo(a, b);
  }

  lemma UnpackedTwo(a: byte, b: byte)
    ensures Unpack([a / 4, a % 4 * 16 + b / 16, b % 16 * 4, 64]) == Some([a, b])
  {
    GroupOfTwo(a, b);
    UnpackLast([a / 4, a % 4 * 16 + b / 16, b % 16 * 4, 64]);
  }

  lemma PackedOne(a: byte)
    ensures Unpack(Pack([a])) == Some([a])
  {
    GroupOfOne(a);
    UnpackLast(Pack([a]));
  }

  /** Decoding undoes encoding. */
  lemma DecodeEncode(data: bytes)
    ensures Decode(Encode(data)) == Some(data)
  {
    UnpackPack(data);
    ValuesOfSpelled(Pack(data));
  }

  lemma DecodedIsBase64(s: string)
    requires Decode(s).Some?
    ensures IsBase64(s)
  {
    assert Values(s).Some?;
    forall k | 0 <= k < |s| ensures IsAlnum(s[k]) || s[k] == '+' || s[k] == '/' || s[k] == '=' {
      assert Values(s).value[k] == Value(s[k]);
    }
  }

  // ----- digests as they are printed -----

  lemma PackMore(a: byte, b: byte, c: byte, more: bytes)
    ensures Pack([a, b, c] + more) == [a / 4, a % 4 * 16 + b / 16, b % 16 * 4 + c / 64, c % 64] + Pack(more)
  {
    assert ([a, b, c] + more)[3..] == more;
  }

  lemma PackGroup(x: nat, y: nat, z: nat, w: nat, more: bytes)
    requires x < 64 && y < 64 && z < 64 && w < 64
    ensures Pack([x * 4 + y / 16, y % 16 * 16 + z / 4, z % 4 * 64 + w] + more) == [x, y, z, w] + Pack(more)
  {
    DigitsRegroup(x, y, z, w);
    PackMore(x * 4 + y / 16, y % 16 * 16 + z / 4, z % 4 * 64 + w, more);
  }

  lemma PackTwo(x: nat, y: nat, z: nat)
    requires x < 64 && y < 64 && z < 64
    ensures Pack([x * 4 + y / 16, y % 16 * 16 + z / 4]) == [x, y, z - z % 4, 64]
  {
    DigitsRegroup(x, y, z, 0);
  }

  lemma PackOne(x: nat, y: nat)
    requires x < 64 && y < 64
    ensures Pack([x * 4 + y / 16]) == [x, y - y % 16, 64, 64]
  {
    DigitsRegroup(x, y, 0, 0);
  }

  lemma LastGroup(x: nat, y: nat, z: nat, w: nat)
    requires x <= 64 && y <= 64 && z <= 64 && w <= 64 && Group(x, y, z, w, true).Some?
    ensures Pack(Group(x, y, z, w, true).value) == [x, y, z, w] <==> LeftOver([x, y, z, w]) == 0
  {
    if w < 64 {
      PackGroup(x, y, z, w, []);
      var r := Group(x, y, z, w, true).value;
      assert r + [] == r;
    } else if z < 64 {
      PackTwo(x, y, z);
      assert [x, y, z - z % 4, 64][2] == z - z % 4;
    } else {
      PackOne(x, y);
      assert [x, y - y % 16, 64, 64][1] == y - y % 16;
    }
  }

  lemma UnpackedParts(v: values, rest: values)
    requires Unpack(v).Some? && |v| != 4 && v != [] && rest == v[4..]
    ensures v == [v[0], v[1], v[2], v[3]] + rest && v[0] < 64 && v[1] < 64 && v[2] < 64 && v[3] < 64
    ensures Unpack(rest).Some? && LeftOver(v) == LeftOver(rest)
    ensures Unpack(v).value == [v[0] * 4 + v[1] / 16, v[1] % 16 * 16 + v[2] / 4, v[2] % 4 * 64 + v[3]] + Unpack(rest).value
  {
    assert |rest| >= 4;
  }

  lemma PackedOneGroup(v: values)
    requires |v| == 4 && Unpack(v).Some?
    ensures Pack(Unpack(v).value) == v <==> LeftOver(v) == 0
  {
    UnpackLast(v);
    LastGroup(v[0], v[1], v[2], v[3]);
    assert v == [v[0], v[1], v[2], v[3]];
  }

  lemma SameRestPacked(v: values, group: values, rest: values, r: bytes, more: bytes)
    requires v == group + rest && Pack(r + more) == group + Pack(more)
    ensures Pack(r + more) == v <==> Pack(more) == rest
  {
    SameRest(group, Pack(more), rest);
  }

  lemma UnpackedRest(v: values, rest: values)
    requires Unpack(v).Some? && |v| != 4 && v != [] && rest == v[4..]
    ensures Unpack(rest).Some? && LeftOver(v) == LeftOver(rest)
    ensures Pack(Unpack(v).value) == v <==> Pack(Unpack(rest).value) == rest
  {
    UnpackedParts(v, rest);
    var x, y, z, w, more := v[0], v[1], v[2], v[3], Unpack(rest).value;
    PackGroup(x, y, z, w, more);
    SameRestPacked(v, [x, y, z, w], rest, [x * 4 + y / 16, y % 16 * 16 + z / 4, z % 4 * 64 + w], more);
  }

  lemma {:induction false} PackedIffNothingIsLeft(v: values)
    requires Unpack(v).Some?
    ensures Pack(Unpack(v).value) == v <==> LeftOver(v) == 0
  {
    if |v| == 4 {
      PackedOneGroup(v);
    } else if v != [] {
      UnpackedRest(v, v[4..]);
      PackedIffNothingIsLeft(v[4..]);
    }
  }

  lemma SameRest(group: seq<nat>, rest: seq<nat>, other: seq<nat>)
    ensures group + rest == group + other <==> rest == other
  {
    assert (group + rest)[|group|..] == rest && (group + other)[|group|..] == other;
  }

  /** The bits that an accepted text has and its bytes do not. */
  function LeftOverOf(s: string): nat
    requires Decode(s).Some?
  {
    LeftOver(Values(s).value)
  }

  /** Of the texts that decode to the same bytes, encoding gives the one without bits left over. */
  lemma PrintedIffNothingIsLeft(s: string)
    requires Decode(s).Some?
    ensures Encode(Decode(s).value) == s <==> LeftOverOf(s) == 0
  {
    var v := Values(s).value;
    PackedIffNothingIsLeft(v);
    SpelledValues(s);
    ValuesOfSpelled(Pack(Decode(s).value));
  }

  // ----- the parser and the download with base64 -----

  function Base64With(sha512: bytes -> bytes): Codec {
    Codec(data => Encode(data), s => Decode(s), sha512)
  }

  lemma Base64IsFaithful(sha512: bytes -> bytes)
    ensures Faithful(Base64With(sha512))
  {
    var codec := Base64With(sha512);
    forall d ensures codec.decode(codec.encode(d)) == Some(d) {
      DecodeEncode(d);
    }
    forall s | codec.decode(s).Some? ensures IsBase64(s) {
      DecodedIsBase64(s);
    }
  }

  /** A file matches an accepted digest exactly if it has these 64 bytes and no bits are left over. */
  lemma MatchesIff(data: bytes, p: Package, sha512: bytes -> bytes)
    requires WellFormed(p, Base64With(sha512))
    ensures Matches(data, p, Base64With(sha512)) <==> Decode(p.sha512) == Some(sha512(data)) && LeftOverOf(p.sha512) == 0
  {
    var codec := Base64With(sha512);
    Base64IsFaithful(sha512);
    MatchIffCanonical(p.sha512, data, codec);
    PrintedIffNothingIsLeft(p.sha512);
  }

  /** The package of an accepted line can be in place, if a file has its digest, exactly if no bits are left over. */
  lemma CanBeInPlaceIff(p: Package, data: bytes, sha512: bytes -> bytes)
    requires WellFormed(p, Base64With(sha512)) && Decode(p.sha512) == Some(sha512(data))
    ensures (exists disk :: InPlace(disk, p, Base64With(sha512))) <==> LeftOverOf(p.sha512) == 0
  {
    var codec := Base64With(sha512);
    MatchesIff(data, p, sha512);
    if LeftOverOf(p.sha512) == 0 {
      var disk: Disk := map[RelativePath(p) := data];
      assert InPlace(disk, p, codec);
    }
    forall disk | InPlace(disk, p, codec) ensures LeftOverOf(p.sha512) == 0 {
      MatchesIff(disk[RelativePath(p)], p, sha512);
    }
  }

  function Zeros(n: nat): (v: seq<nat>)
    ensures |v| == n && forall k :: 0 <= k < n ==> v[k] == 0
  {
    if n == 0 then [] else [0] + Zeros(n - 1)
  }

  /** 64 bytes of zero in base64, with 0 to 15 in the bits left over. */
  function ZeroValues(left: nat): values
    requires left < 16
  {
    Zeros(84) + [0, left, 64, 64]
  }

  function ZeroDigest(left: nat): string
    requires left < 16
  {
    Spell(ZeroValues(left))
  }

  lemma FourZeros(n: nat, rest: values)
    ensures Zeros(n + 4) + rest == [0, 0, 0, 0] + (Zeros(n) + rest)
  {
  }

  lemma ThreeZeros(n: nat, more: bytes)
    ensures Zeros(n + 3) + more == [0, 0, 0] + (Zeros(n) + more)
  {
  }

  lemma {:induction false} ZerosUnpack(n: nat, rest: values, more: bytes)
    requires rest != [] && Unpack(rest) == Some(more)
    ensures Unpack(Zeros(4 * n) + rest) == Some(Zeros(3 * n) + more)
  {
    if n == 0 {
      assert Zeros(0) + rest == rest && Zeros(0) + more == more;
    } else {
      ZerosUnpack(n - 1, rest, more);
      FourZeros(4 * (n - 1), rest);
      ThreeZeros(3 * (n - 1), more);
      GroupOfZeros(Zeros(4 * (n - 1)) + rest, Zeros(3 * (n - 1)) + more);
    }
  }

  lemma GroupOfZeros(rest: values, more: bytes)
    requires rest != [] && Unpack(rest) == Some(more)
    ensures Unpack([0, 0, 0, 0] + rest) == Some([0, 0, 0] + more)
  {
    UnpackMore([0, 0, 0, 0], rest, [0, 0, 0]);
  }

  lemma LastZero(left: nat)
    requires left < 16
    ensures Unpack([0, left, 64, 64]) == Some([0])
  {
    UnpackLast([0, left, 64, 64]);
  }

  lemma ZeroDigestDecodes(left: nat)
    requires left < 16
    ensures Decode(ZeroDigest(left)) == Some(Zeros(64)) && LeftOverOf(ZeroDigest(left)) == left
  {
    var v := ZeroValues(left);
    ValuesOfSpelled(v);
    LastZero(left);
    ZerosUnpack(21, [0, left, 64, 64], [0]);
    assert Zeros(63) + [0] == Zeros(64);
  }

  /** Two digests of the same 64 bytes, both accepted; no file is ever in place for the second. */
  lemma SecondIsNeverInPlace(disk: Disk, p: Package, q: Package, sha512: bytes -> bytes)
    requires MatchesId(p.id) && MatchesVersion(p.version)
    requires p.sha512 == ZeroDigest(0) && q == p.(sha512 := ZeroDigest(1))
    ensures WellFormed(p, Base64With(sha512)) && WellFormed(q, Base64With(sha512)) && p.sha512 != q.sha512
    ensures Decode(p.sha512) == Decode(q.sha512)
    ensures !InPlace(disk, q, Base64With(sha512))
  {
    var codec := Base64With(sha512);
    ZeroDigestDecodes(0);
    ZeroDigestDecodes(1);
    PrintedIffNothingIsLeft(q.sha512);
    Base64IsFaithful(sha512);
    NeverInPlace(disk, q, codec);
  }

  /** With such a package in the list no run ever ends with all packages in place. */
  lemma NeverAllInPlace(disk: Disk, packages: seq<Package>, n: nat, sha512: bytes -> bytes)
    requires n < |packages| && WellFormed(packages[n], Base64With(sha512)) && LeftOverOf(packages[n].sha512) != 0
    ensures !AllInPlace(disk, packages, |packages|, Base64With(sha512))
  {
    var p := packages[n];
    if InPlace(disk, p, Base64With(sha512)) {
      MatchesIff(disk[RelativePath(p)], p, sha512);
    }
  }
}
