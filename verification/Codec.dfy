// The typed readers and writers of util::ByteArray (util/serializer.cpp:103-159,
// 175-197, 201-297 and 315-349), and what serializing a list of values gives back.
module Codec {
  import opened Arith
  import opened Bytes
  import opened Digits
  import opened Wire
  import opened ByteArrays

  // The types a program can write: fixed-width and varint integers, and strings behind
  // a fixed-width or varint length. Widths are in bytes for the fixed formats, in bits
  // for the varints.
  datatype AnyKind =
    | Fixed(w: nat, signed: bool)
    | Var(bits: nat, signed: bool)
    | FixedText(w: nat)
    | VarText

  type Kind = kind: AnyKind | Known(kind) witness VarText

  datatype Value = Number(n: int) | Text(s: seq<byte>)

  predicate Known(kind: AnyKind) {
    match kind
    case Fixed(w, _) => w == 1 || w == 2 || w == 4 || w == 8
    case Var(bits, _) => bits == 32 || bits == 64
    case FixedText(w) => w == 2 || w == 4 || w == 8
    case VarText => true
  }

  predicate Suits(kind: Kind, v: Value) {
    match kind
    case Fixed(w, signed) => v.Number? && InWord(v.n, Word(8 * w), signed)
    case Var(bits, signed) => v.Number? && InWord(v.n, Word(bits), signed)
    case FixedText(_) => v.Text?
    case VarText => v.Text? && |v.s| < Word(64)
  }

  predicate InWord(n: int, m: nat, signed: bool) {
    if signed then FitsSigned(n, m) else 0 <= n < m
  }

  // Strings longer than their length prefix can say do not come back.
  predicate Fits(kind: Kind, v: Value)
    requires Suits(kind, v)
  {
    kind.FixedText? ==> |v.s| < Word(8 * kind.w)
  }

  function Encode(order: Endian, kind: Kind, v: Value): seq<byte>
    requires Suits(kind, v)
  {
    match kind
    case Fixed(w, signed) => InMemory(order, if signed then Unsigned(v.n, Word(8 * w)) else v.n, w)
    case Var(bits, signed) => Leb(if signed then ZigZagEncode(v.n, Word(bits)) else v.n)
    case FixedText(w) => InMemory(order, Cut(|v.s|, 8 * w), w) + v.s
    case VarText => Leb(|v.s|) + v.s
  }

  // The value read and the number of bytes it took, or how far a read got that ran out
  // of data.
  datatype Decoded<V> = Got(v: V, used: nat) | Ended(used: nat)

  function Decode(order: Endian, kind: Kind, s: seq<byte>): (r: Decoded<Value>)
    ensures r.used <= |s|
  {
    match kind
    case Fixed(w, signed) =>
      if |s| < w then Ended(0)
      else
        var n := FromMemory(order, s[..w]);
        Got(Number(if signed then Signed(n, Word(8 * w)) else n), w)
    case Var(bits, signed) =>
      (match Varint(s, bits)
       case Got(m, used) => Got(Number(if signed then ZigZagDecode(m, Word(bits)) else m), used)
       case Ended(used) => Ended(used))
    case FixedText(w) =>
      if |s| < w then Ended(0) else Body(s, w, FromMemory(order, s[..w]))
    case VarText =>
      (match Varint(s, 64)
       case Got(n, used) => Body(s, used, n)
       case Ended(used) => Ended(used))
  }

  // A varint cut to its word.
  function Varint(s: seq<byte>, bits: nat): (r: Decoded<nat>)
    ensures r.used <= |s| && (r.Got? ==> r.v < Word(bits))
  {
    match UnLeb(s, Groups(bits))
    case Whole(n, used) => Got(Cut(n, bits), used)
    case Short(used) => Ended(used)
  }

  function Body(s: seq<byte>, at: nat, len: nat): (r: Decoded<Value>)
    requires at <= |s|
    ensures r.used <= |s|
  {
    if |s| - at < len then Ended(at) else Got(Text(s[at..at + len]), at + len)
  }

  function Later<V>(n: nat, r: Decoded<V>): Decoded<V> {
    r.(used := r.used + n)
  }

  lemma BodyLater(s: seq<byte>, at: nat, len: nat)
    requires at <= |s|
    ensures Body(s, at, len) == Later(at, Body(s[at..], 0, len))
  {
    if len <= |s| - at {
      assert s[at..][0..len] == s[at..at + len];
    }
  }

  // 2^bits for the machine words in use, as literals.
  function Word(bits: nat): (m: nat)
    ensures Modulus(m)
  {
    if bits == 16 then 0x1_0000
    else if bits == 32 then 0x1_0000_0000
    else if bits == 64 then 0x1_0000_0000_0000_0000
    else 0x100
  }

  // A number cut to a machine word.
  function Cut(n: nat, bits: nat): (r: nat)
    ensures r < Word(bits) && (n < Word(bits) ==> r == n)
  {
    DivMod(n, Word(bits));
    Mod(n, Word(bits))
  }

  // How many bytes the varint reader looks at: one for each shift 0, 7, 14, ... < bits.
  function Groups(bits: nat): nat {
    (bits + 6) / 7
  }

  lemma WordIsPow2(bits: nat)
    requires bits == 16 || bits == 32 || bits == 64
    ensures Word(bits) == Pow(2, bits)
  {
    if bits == 16 {
      Pow2At16();
    } else if bits == 32 {
      Pow2At32();
    } else {
      Pow2At64();
    }
  }

  lemma PowDouble(k: nat, p: nat, q: nat)
    requires Pow(2, k) == p && q == p * p
    ensures Pow(2, k + k) == q
  {
    PowSum(2, k, k);
  }

  lemma Pow2At16()
    ensures Pow(2, 16) == 0x1_0000
  {
    assert Pow(2, 4) == 16;
    PowDouble(4, 16, 0x100);
    PowDouble(8, 0x100, 0x1_0000);
  }

  lemma Pow2At32()
    ensures Pow(2, 32) == 0x1_0000_0000
  {
    Pow2At16();
    PowDouble(16, 0x1_0000, 0x1_0000_0000);
  }

  lemma Pow2At64()
    ensures Pow(2, 64) == 0x1_0000_0000_0000_0000
  {
    Pow2At32();
    PowDouble(32, 0x1_0000_0000, 0x1_0000_0000_0000_0000);
  }

  lemma WordIsPow256(w: nat)
    requires w == 1 || w == 2 || w == 4 || w == 8
    ensures Pow(256, w) == Word(8 * w)
  {
    assert Pow(256, 1) == 256;
    assert Pow(256, 2) == 0x1_0000;
    assert Pow(256, 3) == 0x100_0000;
    assert Pow(256, 4) == 0x1_0000_0000;
    assert Pow(256, 5) == 0x100_0000_0000;
    assert Pow(256, 6) == 0x1_0000_0000_0000;
    assert Pow(256, 7) == 0x100_0000_0000_0000;
  }

  // ----- What the bytes are -----

  // Signed numbers are in two's complement or zigzag; a string is its length, cut to the
  // width of the prefix, and then its characters.
  lemma EncodeBytes(order: Endian, kind: Kind, v: Value)
    requires Suits(kind, v)
    ensures var code := Encode(order, kind, v);
            match kind
            case Fixed(w, _) => |code| == w && IsFixed(order, code, v.n % Pow(256, w))
            case Var(_, signed) =>
              IsVarint(code, if !signed then v.n else if v.n >= 0 then 2 * v.n else -2 * v.n - 1)
            case FixedText(w) =>
              |code| == w + |v.s| && IsFixed(order, code[..w], |v.s| % Pow(256, w)) && code[w..] == v.s
            case VarText =>
              var k := |code| - |v.s|; k > 0 && IsVarint(code[..k], |v.s|) && code[k..] == v.s
  {
    match kind
    case Fixed(w, signed) =>
      FixedBytes(order, w, signed, v.n);
    case Var(bits, signed) =>
      if signed {
        ZigZagMeaning(v.n, Word(bits));
      }
      LebIsVarint(if signed then ZigZagEncode(v.n, Word(bits)) else v.n);
    case FixedText(w) =>
      TextBytes(order, w, v.s);
    case VarText =>
      LebIsVarint(|v.s|);
      var code := Leb(|v.s|) + v.s;
      assert code[..|code| - |v.s|] == Leb(|v.s|) && code[|code| - |v.s|..] == v.s;
  }

  lemma FixedBytes(order: Endian, w: nat, signed: bool, n: int)
    requires w == 1 || w == 2 || w == 4 || w == 8
    requires InWord(n, Word(8 * w), signed)
    ensures IsFixed(order, InMemory(order, if signed then Unsigned(n, Word(8 * w)) else n, w), n % Pow(256, w))
  {
    WordIsPow256(w);
    CutOnce(n, Word(8 * w));
    MemoryIsFixed(order, n % Pow(256, w), w);
  }

  lemma CutOnce(n: int, m: nat)
    requires m > 0 && 0 <= n + m && n < m
    ensures n % m == if n < 0 then n + m else n
  {
  }

  lemma TextBytes(order: Endian, w: nat, s: seq<byte>)
    requires w == 2 || w == 4 || w == 8
    ensures var code := Encode(order, FixedText(w), Text(s));
            |code| == w + |s| && IsFixed(order, code[..w], |s| % Pow(256, w)) && code[w..] == s
  {
    WordIsPow256(w);
    DivIsQuotient(|s|, Word(8 * w));
    var prefix: seq<byte> := InMemory(order, Cut(|s|, 8 * w), w);
    MemoryIsFixed(order, Cut(|s|, 8 * w), w);
    assert (prefix + s)[..w] == prefix && (prefix + s)[w..] == s;
  }

  // What the readers of numbers make of any bytes. A fixed-width number is the one in range
  // whose bytes these are.
  lemma DecodeFixedExactly(order: Endian, kind: Kind, s: seq<byte>)
    requires kind.Fixed?
    ensures var r, w := Decode(order, kind, s), kind.w;
            if |s| < w then r == Ended(0)
            else
              && r.Got? && r.used == w && Suits(kind, r.v)
              && InWord(r.v.n, Pow(256, w), kind.signed) && IsFixed(order, s[..w], r.v.n % Pow(256, w))
  {
    var w := kind.w;
    if |s| >= w {
      WordIsPow256(w);
      ReadIsFixed(order, s[..w]);
      CutOnce(Decode(order, kind, s).v.n, Word(8 * w));
    }
  }

  // A varint of at most five, or ten, groups is the number of UnLebExactly and UnLebGroup,
  // cut to 32, or 64, bits.
  lemma VarintExactly(s: seq<byte>, bits: nat)
    requires bits == 32 || bits == 64
    ensures Varint(s, bits) ==
              match UnLeb(s, if bits == 32 then 5 else 10)
              case Whole(n, used) => Got(n % Pow(2, bits), used)
              case Short(used) => Ended(used)
  {
    var r := UnLeb(s, if bits == 32 then 5 else 10);
    WordIsPow2(bits);
    if r.Whole? {
      DivIsQuotient(r.n, Word(bits));
    }
  }

  // A varint is taken as it is or from zigzag, and a read that runs out of data has used what
  // it looked at.
  lemma DecodeVarExactly(order: Endian, kind: Kind, s: seq<byte>)
    requires kind.Var?
    ensures Decode(order, kind, s) ==
              match Varint(s, kind.bits)
              case Got(m, used) =>
                Got(Number(if !kind.signed then m else if m % 2 == 0 then m / 2 else -(m / 2) - 1), used)
              case Ended(used) => Ended(used)
  {
    var r := Varint(s, kind.bits);
    if r.Got? && kind.signed {
      ZigZagOnto(r.v, Word(kind.bits));
      ZigZagMeaning(ZigZagDecode(r.v, Word(kind.bits)), Word(kind.bits));
    }
  }

  // A string is as many characters as its length says. If there are fewer, the length has
  // been used up all the same.
  lemma DecodeTextExactly(order: Endian, kind: Kind, s: seq<byte>)
    requires kind.FixedText? || kind.VarText?
    ensures kind.FixedText? ==>
              if |s| < kind.w then Decode(order, kind, s) == Ended(0)
              else
                exists n: nat ::
                  && n < Pow(256, kind.w) && IsFixed(order, s[..kind.w], n)
                  && Decode(order, kind, s) ==
                       if |s| < kind.w + n then Ended(kind.w) else Got(Text(s[kind.w..kind.w + n]), kind.w + n)
    ensures kind.VarText? ==>
              match Varint(s, 64)
              case Ended(used) => Decode(order, kind, s) == Ended(used)
              case Got(n, used) =>
                Decode(order, kind, s) == if |s| < used + n then Ended(used) else Got(Text(s[used..used + n]), used + n)
  {
    if kind.FixedText? && |s| >= kind.w {
      ReadIsFixed(order, s[..kind.w]);
      var n := FromMemory(order, s[..kind.w]);
      assert n < Pow(256, kind.w) && IsFixed(order, s[..kind.w], n);
    }
  }

  // Reading back what was written, whatever follows it.
  lemma RoundTrip(order: Endian, kind: Kind, v: Value, rest: seq<byte>)
    requires Suits(kind, v) && Fits(kind, v)
    ensures Decode(order, kind, Encode(order, kind, v) + rest) == Got(v, |Encode(order, kind, v)|)
  {
    match kind
    case Fixed(w, signed) =>
      FixedRoundTrips(order, kind, v, rest);
    case Var(bits, signed) =>
      VarRoundTrips(order, kind, v, rest);
    case FixedText(w) =>
      TextRoundTrip(order, w, v.s, rest);
    case VarText =>
      VarTextRoundTrip(order, v.s, rest);
  }

  lemma FixedRoundTrips(order: Endian, kind: Kind, v: Value, rest: seq<byte>)
    requires kind.Fixed? && Suits(kind, v)
    ensures Decode(order, kind, Encode(order, kind, v) + rest) == Got(v, kind.w)
  {
    var w, m := kind.w, Word(8 * kind.w);
    var n := if kind.signed then Unsigned(v.n, m) else v.n;
    WordIsPow256(w);
    if kind.signed {
      UnsignedSigned(v.n, m);
    }
    FixedRoundTrip(order, order, order, n, w);
    assert (InMemory(order, n, w) + rest)[..w] == InMemory(order, n, w);
  }

  lemma VarRoundTrips(order: Endian, kind: Kind, v: Value, rest: seq<byte>)
    requires kind.Var? && Suits(kind, v)
    ensures Decode(order, kind, Encode(order, kind, v) + rest) == Got(v, |Encode(order, kind, v)|)
  {
    var m := Word(kind.bits);
    if kind.signed {
      ZigZagMeaning(v.n, m);
      LebRoundTrip(ZigZagEncode(v.n, m), kind.bits, rest);
    } else {
      LebRoundTrip(v.n, kind.bits, rest);
    }
  }

  // The reader looks at enough bytes, and cutting the number to its word changes nothing.
  lemma LebRoundTrip(n: nat, bits: nat, rest: seq<byte>)
    requires (bits == 32 || bits == 64) && n < Word(bits)
    ensures UnLeb(Leb(n) + rest, Groups(bits)) == Whole(n, |Leb(n)|)
    ensures Cut(n, bits) == n
  {
    LebFits(n);
    UnLebOfLeb(n, rest, Groups(bits));
  }

  lemma BodyRoundTrip(prefix: seq<byte>, s: seq<byte>, rest: seq<byte>)
    ensures Body(prefix + s + rest, |prefix|, |s|) == Got(Text(s), |prefix| + |s|)
  {
    assert (prefix + s + rest)[|prefix|..|prefix| + |s|] == s;
  }

  lemma VarTextRoundTrip(order: Endian, s: seq<byte>, rest: seq<byte>)
    requires |s| < Word(64)
    ensures Decode(order, VarText, Encode(order, VarText, Text(s)) + rest) == Got(Text(s), |Leb(|s|)| + |s|)
  {
    LebRoundTrip(|s|, 64, s + rest);
    BodyRoundTrip(Leb(|s|), s, rest);
    assert Leb(|s|) + s + rest == Leb(|s|) + (s + rest);
  }

  lemma TextPrefix(order: Endian, w: nat, s: seq<byte>, rest: seq<byte>)
    requires w == 2 || w == 4 || w == 8
    ensures var all := Encode(order, FixedText(w), Text(s)) + rest;
            Decode(order, FixedText(w), all) == Body(all, w, Cut(|s|, 8 * w))
  {
    WordIsPow256(w);
    var len := Cut(|s|, 8 * w);
    FixedRoundTrip(order, order, order, len, w);
    assert (InMemory(order, len, w) + s + rest)[..w] == InMemory(order, len, w);
  }

  // A string behind a fixed-width length comes back exactly when its length fits the
  // prefix; the writer cuts the length to the prefix width without a check.
  lemma TextRoundTrip(order: Endian, w: nat, s: seq<byte>, rest: seq<byte>)
    requires w == 2 || w == 4 || w == 8
    ensures Decode(order, FixedText(w), Encode(order, FixedText(w), Text(s)) + rest) == Got(Text(s), w + |s|)
       <==> |s| < Word(8 * w)
  {
    TextPrefix(order, w, s, rest);
    BodyRoundTrip(InMemory(order, Cut(|s|, 8 * w), w), s, rest);
  }

  // ----- Lists of values -----

  datatype AnyItem = Item(kind: Kind, v: Value)

  type Item = item: AnyItem | Suits(item.kind, item.v) && Fits(item.kind, item.v)
    witness Item(VarText, Text([]))

  // A list of values is written one after the other ...
  function EncodeAll(order: Endian, items: seq<Item>): seq<byte> {
    Concat(Codes(order, items))
  }

  function Codes(order: Endian, items: seq<Item>): seq<seq<byte>> {
    seq(|items|, i requires 0 <= i < |items| => Encode(order, items[i].kind, items[i].v))
  }

  // ... and read one after the other, for as long as the data lasts.
  function DecodeAll(order: Endian, kinds: seq<Kind>, s: seq<byte>): (seq<Value>, nat) {
    if kinds == [] then ([], 0)
    else
      var first := Decode(order, kinds[0], s);
      if first.Ended? then ([], first.used)
      else Prepend(first, DecodeAll(order, kinds[1..], s[first.used..]))
  }

  function Prepend(first: Decoded<Value>, rest: (seq<Value>, nat)): (seq<Value>, nat)
    requires first.Got?
  {
    ([first.v] + rest.0, first.used + rest.1)
  }

  function Kinds(items: seq<Item>): seq<Kind> {
    if items == [] then [] else [items[0].kind] + Kinds(items[1..])
  }

  function Values(items: seq<Item>): seq<Value> {
    if items == [] then [] else [items[0].v] + Values(items[1..])
  }

  // The first value of a list comes off its own code.
  lemma DecodeFirst(order: Endian, first: Item, kinds: seq<Kind>, after: seq<byte>)
    ensures DecodeAll(order, [first.kind] + kinds, Encode(order, first.kind, first.v) + after)
         == Prepend(Got(first.v, |Encode(order, first.kind, first.v)|), DecodeAll(order, kinds, after))
  {
    var code: seq<byte> := Encode(order, first.kind, first.v);
    RoundTrip(order, first.kind, first.v, after);
    assert (code + after)[|code|..] == after;
    assert ([first.kind] + kinds)[1..] == kinds;
  }

  lemma EncodeFirst(order: Endian, items: seq<Item>)
    requires items != []
    ensures EncodeAll(order, items)
         == Encode(order, items[0].kind, items[0].v) + EncodeAll(order, items[1..])
  {
    assert Codes(order, items)[1..] == Codes(order, items[1..]);
  }

  lemma {:induction false} ListRoundTrip(order: Endian, items: seq<Item>, rest: seq<byte>)
    ensures DecodeAll(order, Kinds(items), EncodeAll(order, items) + rest) == (Values(items), |EncodeAll(order, items)|)
  {
    if items != [] {
      var code: seq<byte> := Encode(order, items[0].kind, items[0].v);
      var more: seq<byte> := EncodeAll(order, items[1..]);
      EncodeFirst(order, items);
      calc {
        DecodeAll(order, Kinds(items), EncodeAll(order, items) + rest);
        { assert code + more + rest == code + (more + rest); }
        DecodeAll(order, [items[0].kind] + Kinds(items[1..]), code + (more + rest));
        { DecodeFirst(order, items[0], Kinds(items[1..]), more + rest); }
        Prepend(Got(items[0].v, |code|), DecodeAll(order, Kinds(items[1..]), more + rest));
        { ListRoundTrip(order, items[1..], rest); }
        Prepend(Got(items[0].v, |code|), (Values(items[1..]), |more|));
        (Values(items), |EncodeAll(order, items)|);
      }
    }
  }
}
