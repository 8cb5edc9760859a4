// The byte formats of util/serializer.cpp as functions on numbers: zigzag (7-17),
// base-128 varints (19-70 and 257-297, unsigned LEB128 of section 7.6 of DWARF 5),
// fixed-width integers (103-141) and length-prefixed strings (175-197).
module Wire {
  import opened Bytes
  import opened Digits

  // ----- Two's complement and zigzag -----

  // A word of w bits is a number below m = 2^w; all that matters here is that m is even.
  predicate Modulus(m: nat) {
    m > 0 && m % 2 == 0
  }

  predicate FitsSigned(n: int, m: nat) {
    0 <= 2 * n + m && 2 * n < m
  }

  // A two's complement number as the unsigned number with the same bits, and back.
  function Unsigned(n: int, m: nat): nat
    requires FitsSigned(n, m)
  {
    if n < 0 then n + m else n
  }

  function Signed(u: nat, m: nat): int {
    if 2 * u < m then u else u - m
  }

  lemma UnsignedSigned(n: int, m: nat)
    requires Modulus(m) && FitsSigned(n, m)
    ensures Unsigned(n, m) < m && Signed(Unsigned(n, m), m) == n
  {
  }

  // The operators of the zigzag expressions: `<< 1` drops the carry, `>> (w - 1)` of a
  // signed number is all sign bits, and exclusive or with a word of equal bits keeps or
  // complements.
  function ShiftLeftOne(u: nat, m: nat): nat
    requires m > 0
  {
    (2 * u) % m
  }

  function SignBits(n: int, m: nat): nat
    requires m > 0
  {
    if n < 0 then m - 1 else 0
  }

  function XorEqualBits(u: nat, mask: nat, m: nat): nat
    requires u < m && (mask == 0 || mask == m - 1)
  {
    if mask == 0 then u else m - 1 - u
  }

  // (n << 1) ^ (n >> (w - 1))
  function ZigZagEncode(n: int, m: nat): nat
    requires Modulus(m) && FitsSigned(n, m)
  {
    XorEqualBits(ShiftLeftOne(Unsigned(n, m), m), SignBits(n, m), m)
  }

  // (u >> 1) ^ -(u & 1)
  function ZigZagDecode(u: nat, m: nat): int
    requires Modulus(m) && u < m
  {
    Signed(XorEqualBits(u / 2, SignBits(0 - u % 2, m), m), m)
  }

  // Exclusive or, bit by bit, of two words of w bits.
  function Xor(a: nat, b: nat, w: nat): nat {
    if w == 0 then 0 else (if a % 2 == b % 2 then 0 else 1) + 2 * Xor(a / 2, b / 2, w - 1)
  }

  // With no bits set it keeps, with all bits set it complements.
  lemma OnesHalf(half: nat)
    requires half > 0
    ensures (2 * half - 1) % 2 == 1 && (2 * half - 1) / 2 == half - 1
  {
  }

  lemma {:induction false} XorEqual(u: nat, w: nat)
    requires u < Pow(2, w)
    ensures Xor(u, 0, w) == u
    ensures Xor(u, Pow(2, w) - 1, w) == Pow(2, w) - 1 - u
  {
    if w > 0 {
      XorEqual(u / 2, w - 1);
      OnesHalf(Pow(2, w - 1));
    }
  }

  // Here the bits are those of -1 or 0.
  lemma XorSign(u: nat, sign: int, w: nat)
    requires w > 0 && u < Pow(2, w) && (sign == -1 || sign == 0)
    ensures var m := Pow(2, w);
            && Modulus(m) && FitsSigned(sign, m)
            && Xor(u, Unsigned(sign, m), w) == XorEqualBits(u, SignBits(sign, m), m)
  {
    XorEqual(u, w);
    SignMask(u, sign, Pow(2, w));
  }

  lemma SignMask(u: nat, sign: int, m: nat)
    requires Modulus(m) && u < m && (sign == -1 || sign == 0)
    ensures FitsSigned(sign, m) && Unsigned(sign, m) == if sign == 0 then 0 else m - 1
    ensures XorEqualBits(u, SignBits(sign, m), m) == if sign == 0 then u else m - 1 - u
  {
  }

  // The zigzag expressions bit by bit, for words of any width: (n << 1) ^ (n >> (w - 1)) with
  // an arithmetic shift, which divides and rounds down ...
  lemma ZigZagEncodeOnWords(n: int, w: nat)
    requires w > 0 && FitsSigned(n, Pow(2, w))
    ensures var m, half := Pow(2, w), Pow(2, w - 1);
            && half > 0 && Modulus(m) && FitsSigned(n / half, m)
            && ZigZagEncode(n, m) == Xor(ShiftLeftOne(Unsigned(n, m), m), Unsigned(n / half, m), w)
  {
    var m, half := Pow(2, w), Pow(2, w - 1);
    ShiftedFits(Unsigned(n, m), m);
    FloorOfSign(n, half);
    var sign := n / half;
    assert SignBits(n, m) == SignBits(sign, m);
    XorSign(ShiftLeftOne(Unsigned(n, m), m), sign, w);
  }

  lemma ShiftedFits(u: nat, m: nat)
    requires m > 0
    ensures ShiftLeftOne(u, m) < m
  {
  }

  // ... and (u >> 1) ^ -(u & 1).
  lemma ZigZagDecodeOnWords(u: nat, w: nat)
    requires w > 0 && u < Pow(2, w)
    ensures var m := Pow(2, w);
            && Modulus(m) && FitsSigned(0 - u % 2, m)
            && ZigZagDecode(u, m) == Signed(Xor(u / 2, Unsigned(0 - u % 2, m), w), m)
  {
    XorSign(u / 2, 0 - u % 2, w);
  }

  lemma FloorOfSign(n: int, half: nat)
    requires half > 0 && 0 - half <= n < half
    ensures n / half == if n < 0 then -1 else 0
  {
    var q := n / half;
    assert n == q * half + n % half && 0 <= n % half < half;
    assert q >= 1 ==> q * half >= half;
    assert q <= -1 ==> q * half + half <= 0;
    assert q <= -2 ==> q * half + 2 * half <= 0;
  }

  // The same on machine words: the shifts double, exclusive or with equal bits keeps or
  // complements, and a varint group lands on bits that are still zero, so that setting
  // them is adding them.
  lemma MachineWord32(x: bv32)
    ensures x << 1 == x + x && x ^ 0 == x && x ^ 0xFFFF_FFFF == 0xFFFF_FFFF - x
    ensures x >> 7 == x / 128 && (x & 0x7F) | 0x80 == x % 128 + 128
  {
  }

  lemma MachineWord64(x: bv64)
    ensures x << 1 == x + x && x ^ 0 == x && x ^ 0xFFFF_FFFF_FFFF_FFFF == 0xFFFF_FFFF_FFFF_FFFF - x
    ensures x >> 7 == x / 128 && (x & 0x7F) | 0x80 == x % 128 + 128
  {
  }

  lemma MachineGroup(word: bv64, group: bv64, shift: bv8)
    requires shift < 64 && group < 128 && word < (1 << shift)
    ensures word | (group << shift) == word + (group << shift)
  {
  }

  // Zigzag is 2n for n >= 0 and -2n - 1 for n < 0, and decoding inverts it both ways.
  lemma ZigZagMeaning(n: int, m: nat)
    requires Modulus(m) && FitsSigned(n, m)
    ensures ZigZagEncode(n, m) == if n >= 0 then 2 * n else -2 * n - 1
    ensures ZigZagEncode(n, m) < m
    ensures ZigZagDecode(ZigZagEncode(n, m), m) == n
  {
    ModOnce(if n >= 0 then 2 * n else 2 * n + m, m);
    assert 2 * Unsigned(n, m) == if n >= 0 then 2 * n else 2 * n + m + m;
    var u := ZigZagEncode(n, m);
    assert u / 2 == if n >= 0 then n else -n - 1;
  }

  lemma ModOnce(r: nat, m: nat)
    requires r < m
    ensures r % m == r && (r + m) % m == r
  {
  }

  lemma ZigZagOnto(u: nat, m: nat)
    requires Modulus(m) && u < m
    ensures FitsSigned(ZigZagDecode(u, m), m)
    ensures ZigZagEncode(ZigZagDecode(u, m), m) == u
  {
    var n := ZigZagDecode(u, m);
    assert n == if u % 2 == 0 then u / 2 else -(u / 2) - 1;
    ZigZagMeaning(n, m);
  }

  // ----- Varints -----

  function Leb(n: nat): (s: seq<byte>)
  {
    if n < 128 then [n] else [n % 128 + 128] + Leb(n / 128)
  }

  // The code of n has k bytes exactly when n needs k groups of seven bits.
  lemma {:induction false} LebLength(n: nat, k: nat)
    requires k > 0
    ensures |Leb(n)| == k <==> n < Pow(128, k) && (k == 1 || n >= Pow(128, k - 1))
  {
    if n < 128 {
      assert Pow(128, 1) == 128 * Pow(128, 0);
    } else if k > 1 {
      LebLength(n / 128, k - 1);
      if k == 2 {
        assert Pow(128, 1) == 128 * Pow(128, 0);
      }
    }
  }

  lemma {:induction false} LebAtMost(n: nat, k: nat)
    requires k > 0 && n < Pow(128, k)
    ensures 0 < |Leb(n)| <= k
  {
    if n >= 128 {
      assert Pow(128, k) == 128 * Pow(128, k - 1);
      LebAtMost(n / 128, k - 1);
    }
  }

  // Five bytes hold every 32-bit number and ten bytes every 64-bit number.
  lemma LebFits(n: nat)
    ensures n < 0x1_0000_0000 ==> |Leb(n)| <= 5
    ensures n < 0x1_0000_0000_0000_0000 ==> |Leb(n)| <= 10
  {
    PowersOf128();
    if n < 0x1_0000_0000 {
      LebAtMost(n, 5);
    }
    if n < 0x1_0000_0000_0000_0000 {
      LebAtMost(n, 10);
    }
  }

  lemma PowersOf128()
    ensures Pow(128, 5) == 0x8_0000_0000
    ensures Pow(128, 10) == 0x40_0000_0000_0000_0000
  {
    assert Pow(128, 0) == 1;
    assert Pow(128, 1) == 128;
    assert Pow(128, 2) == 128 * 128;
    assert Pow(128, 3) == 128 * 128 * 128;
    assert Pow(128, 4) == 128 * 128 * 128 * 128;
    assert Pow(128, 5) == 0x8_0000_0000;
    assert Pow(128, 6) == 128 * 0x8_0000_0000;
    assert Pow(128, 7) == 128 * 128 * 0x8_0000_0000;
    assert Pow(128, 8) == 128 * 128 * 128 * 0x8_0000_0000;
    assert Pow(128, 9) == 128 * 128 * 128 * 128 * 0x8_0000_0000;
  }

  // Reading at most `groups` bytes of seven bits each. The number is exact, before the
  // reader cuts it to its word; `Short` means that the input ended first.
  datatype Unread = Whole(n: nat, used: nat) | Short(used: nat)

  function UnLeb(s: seq<byte>, groups: nat): (r: Unread)
    ensures r.used <= groups && r.used <= |s|
    decreases |s|
  {
    if groups == 0 then Whole(0, 0)
    else if s == [] then Short(0)
    else if s[0] < 128 then Whole(s[0], 1)
    else
      match UnLeb(s[1..], groups - 1)
      case Whole(n, used) => Whole(s[0] % 128 + 128 * n, used + 1)
      case Short(used) => Short(used + 1)
  }

  lemma {:induction false} UnLebOfLeb(n: nat, rest: seq<byte>, groups: nat)
    requires |Leb(n)| <= groups
    ensures UnLeb(Leb(n) + rest, groups) == Whole(n, |Leb(n)|)
  {
    if n >= 128 {
      UnLebOfLeb(n / 128, rest, groups - 1);
      assert (Leb(n) + rest)[1..] == Leb(n / 128) + rest;
    }
  }

  // No code is a prefix of another, and a code is followed by exactly what was appended.
  lemma LebPrefixFree(m: nat, n: nat, x: seq<byte>, y: seq<byte>)
    requires Leb(m) + x == Leb(n) + y
    ensures m == n && x == y
  {
    var groups := |Leb(m)| + |Leb(n)|;
    UnLebOfLeb(m, x, groups);
    UnLebOfLeb(n, y, groups);
    assert x == (Leb(m) + x)[|Leb(m)|..];
    assert y == (Leb(n) + y)[|Leb(n)|..];
  }

  // What a varint of n looks like: group i holds the bits 7i to 7i + 6, all bytes but the
  // last have their top bit set, and there is no group too many.
  ghost predicate IsVarint(code: seq<byte>, n: nat) {
    && code != [] && n < Pow(128, |code|) && (|code| == 1 || n >= Pow(128, |code| - 1))
    && forall i :: 0 <= i < |code| ==>
         code[i] % 128 == n / Pow(128, i) % 128 && (code[i] >= 128 <==> i < |code| - 1)
  }

  lemma {:induction false} LebGroup(n: nat, i: nat)
    requires i < |Leb(n)|
    ensures Leb(n)[i] % 128 == n / Pow(128, i) % 128
    ensures Leb(n)[i] >= 128 <==> i < |Leb(n)| - 1
  {
    if i > 0 {
      LebGroup(n / 128, i - 1);
      NextDigit(n, 128, i - 1);
    }
  }

  lemma LebIsVarint(n: nat)
    ensures IsVarint(Leb(n), n)
  {
    LebLength(n, |Leb(n)|);
    forall i | 0 <= i < |Leb(n)|
      ensures Leb(n)[i] % 128 == n / Pow(128, i) % 128 && (Leb(n)[i] >= 128 <==> i < |Leb(n)| - 1)
    {
      LebGroup(n, i);
    }
  }

  // What the decoder makes of any input, also of one with groups too many: it stops behind
  // the first byte without the top bit, after its last group, or where the input ends; each
  // group says seven bits of the number.
  lemma {:induction false} UnLebExactly(s: seq<byte>, groups: nat)
    ensures var r := UnLeb(s, groups);
            && (forall i :: 0 <= i < r.used - 1 ==> s[i] >= 128)
            && (r.Short? ==> r.used == |s| < groups && forall i :: 0 <= i < |s| ==> s[i] >= 128)
            && (r.Whole? && r.used < groups ==> r.used > 0 && s[r.used - 1] < 128)
            && (r.Whole? ==> r.n < Pow(128, r.used))
    decreases |s|
  {
    if groups > 0 && s != [] && s[0] >= 128 {
      UnLebExactly(s[1..], groups - 1);
      var r := UnLeb(s[1..], groups - 1);
      forall i | 0 <= i < r.used
        ensures s[i] >= 128
      {
        assert i > 0 ==> s[1..][i - 1] >= 128;
      }
      if r.Short? {
        forall i | 0 <= i < |s|
          ensures s[i] >= 128
        {
          assert i > 0 ==> s[1..][i - 1] >= 128;
        }
      }
    }
  }

  lemma {:induction false} UnLebGroup(s: seq<byte>, groups: nat, i: nat)
    requires UnLeb(s, groups).Whole? && i < UnLeb(s, groups).used
    ensures UnLeb(s, groups).n / Pow(128, i) % 128 == s[i] % 128
    decreases |s|
  {
    var n := UnLeb(s, groups).n;
    if s[0] >= 128 {
      var rest := UnLeb(s[1..], groups - 1).n;
      assert n == s[0] % 128 + 128 * rest;
      GroupOn(s[0] % 128, rest);
    }
    if i == 0 {
      assert n / Pow(128, 0) == n;
    } else {
      UnLebGroup(s[1..], groups - 1, i - 1);
      NextDigit(n, 128, i - 1);
    }
  }

  lemma GroupOn(group: nat, rest: nat)
    requires group < 128
    ensures (group + 128 * rest) / 128 == rest && (group + 128 * rest) % 128 == group
  {
  }

  // ----- Fixed-width integers -----

  function LittleEndian(n: nat, w: nat): (s: seq<byte>)
    ensures |s| == w
  {
    if w == 0 then [] else [n % 256] + LittleEndian(n / 256, w - 1)
  }

  function FromLittle(s: seq<byte>): nat {
    if s == [] then 0 else s[0] + 256 * FromLittle(s[1..])
  }

  function Reverse(s: seq<byte>): (r: seq<byte>)
    ensures |r| == |s|
  {
    if s == [] then [] else Reverse(s[1..]) + [s[0]]
  }

  // A number in the memory of a host, and the byte swap between the two kinds of host.
  function InMemory(host: Endian, n: nat, w: nat): (s: seq<byte>)
    ensures |s| == w
  {
    if host == Little then LittleEndian(n, w) else Reverse(LittleEndian(n, w))
  }

  function FromMemory(host: Endian, s: seq<byte>): nat {
    FromLittle(if host == Little then s else Reverse(s))
  }

  function ByteSwap(n: nat, w: nat): nat {
    FromLittle(Reverse(LittleEndian(n, w)))
  }

  lemma {:induction false} FromLittleLittle(n: nat, w: nat)
    requires n < Pow(256, w)
    ensures FromLittle(LittleEndian(n, w)) == n
  {
    if w > 0 {
      FromLittleLittle(n / 256, w - 1);
      assert LittleEndian(n, w)[1..] == LittleEndian(n / 256, w - 1);
    }
  }

  lemma {:induction false} LittleFromLittle(s: seq<byte>)
    ensures FromLittle(s) < Pow(256, |s|)
    ensures LittleEndian(FromLittle(s), |s|) == s
  {
    if s != [] {
      LittleFromLittle(s[1..]);
      var n, rest := FromLittle(s), FromLittle(s[1..]);
      assert n == s[0] + 256 * rest;
      assert n / 256 == rest && n % 256 == s[0];
      assert LittleEndian(n, |s|) == [s[0]] + LittleEndian(rest, |s| - 1);
    }
  }

  lemma {:induction false} ReverseAppend(s: seq<byte>, b: byte)
    ensures Reverse(s + [b]) == [b] + Reverse(s)
  {
    if s != [] {
      ReverseAppend(s[1..], b);
      assert (s + [b])[1..] == s[1..] + [b];
    } else {
      assert s + [b] == [b];
    }
  }

  lemma {:induction false} ReverseReverse(s: seq<byte>)
    ensures Reverse(Reverse(s)) == s
  {
    if s != [] {
      ReverseReverse(s[1..]);
      ReverseAppend(Reverse(s[1..]), s[0]);
    }
  }

  // Byte i of a number, in the one order and in the other.
  lemma {:induction false} LittleByte(n: nat, w: nat, i: nat)
    requires i < w
    ensures LittleEndian(n, w)[i] == n / Pow(256, i) % 256
  {
    if i > 0 {
      LittleByte(n / 256, w - 1, i - 1);
      NextDigit(n, 256, i - 1);
    }
  }

  lemma {:induction false} ReverseAt(s: seq<byte>, i: nat)
    requires i < |s|
    ensures Reverse(s)[i] == s[|s| - 1 - i]
  {
    if i < |s| - 1 {
      ReverseAt(s[1..], i);
    }
  }

  lemma MemoryByte(order: Endian, n: nat, w: nat, i: nat)
    requires i < w
    ensures InMemory(order, n, w)[i] == n / Pow(256, if order == Big then w - 1 - i else i) % 256
  {
    if order == Big {
      ReverseAt(LittleEndian(n, w), i);
      LittleByte(n, w, w - 1 - i);
    } else {
      LittleByte(n, w, i);
    }
  }

  lemma MemoryFromMemory(order: Endian, s: seq<byte>)
    ensures FromMemory(order, s) < Pow(256, |s|) && InMemory(order, FromMemory(order, s), |s|) == s
  {
    LittleFromLittle(if order == Big then Reverse(s) else s);
    ReverseReverse(s);
  }

  // What the bytes of a fixed-width number look like in either order.
  ghost predicate IsFixed(order: Endian, code: seq<byte>, n: nat) {
    forall i :: 0 <= i < |code| ==> code[i] == n / Pow(256, if order == Big then |code| - 1 - i else i) % 256
  }

  lemma MemoryIsFixed(order: Endian, n: nat, w: nat)
    ensures IsFixed(order, InMemory(order, n, w), n)
  {
    forall i | 0 <= i < w
      ensures InMemory(order, n, w)[i] == n / Pow(256, if order == Big then w - 1 - i else i) % 256
    {
      MemoryByte(order, n, w, i);
    }
  }

  // The number read is the one with these bytes; it is their sum, each at its place.
  lemma ReadIsFixed(order: Endian, s: seq<byte>)
    ensures IsFixed(order, s, FromMemory(order, s)) && FromMemory(order, s) < Pow(256, |s|)
  {
    MemoryFromMemory(order, s);
    MemoryIsFixed(order, FromMemory(order, s), |s|);
  }

  // The bytes from place k on, each times the power of 256 it stands for.
  ghost function Weighed(order: Endian, s: seq<byte>, k: nat): nat
    requires k <= |s|
    decreases |s| - k
  {
    if k == |s| then 0
    else s[k] * Pow(256, if order == Big then |s| - 1 - k else k) + Weighed(order, s, k + 1)
  }

  lemma {:induction false} FromLittleAppend(s: seq<byte>, b: byte)
    ensures FromLittle(s + [b]) == FromLittle(s) + b * Pow(256, |s|)
  {
    if s == [] {
      assert s + [b] == [b] && [b][1..] == [];
    } else {
      assert (s + [b])[1..] == s[1..] + [b];
      FromLittleAppend(s[1..], b);
      assert 256 * (b * Pow(256, |s| - 1)) == b * Pow(256, |s|);
    }
  }

  lemma {:induction false} WeighedBig(s: seq<byte>, k: nat)
    requires k <= |s|
    ensures Weighed(Big, s, k) == FromLittle(Reverse(s[k..]))
    decreases |s| - k
  {
    if k < |s| {
      WeighedBig(s, k + 1);
      assert s[k..][1..] == s[k + 1..];
      FromLittleAppend(Reverse(s[k + 1..]), s[k]);
    }
  }

  lemma {:induction false} WeighedLittle(s: seq<byte>, k: nat)
    requires k <= |s|
    ensures Weighed(Little, s, k) == FromLittle(s[k..]) * Pow(256, k)
    decreases |s| - k
  {
    if k < |s| {
      WeighedLittle(s, k + 1);
      assert s[k..][1..] == s[k + 1..];
      var rest := FromLittle(s[k + 1..]);
      assert rest * (256 * Pow(256, k)) == 256 * rest * Pow(256, k);
      assert (s[k] + 256 * rest) * Pow(256, k) == s[k] * Pow(256, k) + 256 * rest * Pow(256, k);
    }
  }

  lemma MemorySum(order: Endian, s: seq<byte>)
    ensures FromMemory(order, s) == Weighed(order, s, 0)
  {
    assert s[0..] == s;
    if order == Big {
      WeighedBig(s, 0);
    } else {
      WeighedLittle(s, 0);
    }
  }

  // `writeF*`: swap unless the buffer has the host's order, then copy the memory.
  function FixedOut(host: Endian, order: Endian, n: nat, w: nat): (s: seq<byte>)
    ensures |s| == w
  {
    InMemory(host, if order == host then n else ByteSwap(n, w), w)
  }

  // `readF*`: copy into memory, then swap unless the buffer has the host's order.
  function FixedIn(host: Endian, order: Endian, s: seq<byte>): nat {
    var n := FromMemory(host, s);
    if order == host then n else ByteSwap(n, |s|)
  }

  // The bytes depend on the buffer's order alone: any host reads what any other wrote.
  lemma HostDoesNotMatter(host: Endian, order: Endian, n: nat, w: nat)
    ensures FixedOut(host, order, n, w) == InMemory(order, n, w)
  {
    var little := LittleEndian(n, w);
    LittleFromLittle(Reverse(little));
    ReverseReverse(little);
  }

  // So does the number read back.
  lemma FixedInMeaning(host: Endian, order: Endian, s: seq<byte>)
    ensures FixedIn(host, order, s) == FromMemory(order, s)
  {
    LittleFromLittle(s);
    LittleFromLittle(Reverse(s));
    ReverseReverse(s);
  }

  lemma FixedRoundTrip(writer: Endian, reader: Endian, order: Endian, n: nat, w: nat)
    requires n < Pow(256, w)
    ensures FixedIn(reader, order, FixedOut(writer, order, n, w)) == n
  {
    HostDoesNotMatter(writer, order, n, w);
    var little := LittleEndian(n, w);
    ReverseReverse(little);
    FromLittleLittle(n, w);
    LittleFromLittle(Reverse(little));
  }
}
