// The printer of IPv6 addresses, IPv6Address::insert (net/address.cpp:535-568), against a
// reader of the text form of section 2.2 of RFC 4291.
module IPv6Printers {
  import opened Options
  import opened Digits

  // The eight groups, as numbers; in memory they are big-endian.
  type Group = n: nat | n < 0x1_0000

  // ----- Numbers as text -----

  function Digit(d: nat): char
    requires d < 16
  {
    if d < 10 then ('0' as int + d) as char else ('a' as int + d - 10) as char
  }

  function DigitValue(c: char): Option<nat> {
    if '0' <= c <= '9' then Some(c as int - '0' as int)
    else if 'a' <= c <= 'f' then Some(c as int - 'a' as int + 10)
    else None
  }

  lemma DigitRoundTrip(d: nat)
    requires d < 16
    ensures DigitValue(Digit(d)) == Some(d) && Digit(d) != ':'
  {
  }

  // `std::hex`, and the same in other bases.
  function Numeral(n: nat, base: nat): (s: string)
    requires 2 <= base <= 16
    ensures s != ""
  {
    if n < base then [Digit(n)] else Numeral(n / base, base) + [Digit(n % base)]
  }

  function Hex(n: Group): string {
    Numeral(n, 16)
  }

  // What a text says in a base: the sum of its digits, each times its power of the base.
  function NumeralValue(s: string, base: nat): Option<nat> {
    if s == "" then Some(0)
    else
      var front, last := NumeralValue(s[..|s| - 1], base), DigitValue(s[|s| - 1]);
      if front.None? || last.None? || last.value >= base then None
      else Some(base * front.value + last.value)
  }

  // One to four hexadecimal digits.
  function GroupValue(s: string): Option<nat> {
    if 1 <= |s| <= 4 then NumeralValue(s, 16) else None
  }

  // A numeral says its number, in any base.
  lemma {:induction false} NumeralRoundTrip(n: nat, base: nat)
    requires 2 <= base <= 16
    ensures NumeralValue(Numeral(n, base), base) == Some(n)
    ensures ':' !in Numeral(n, base)
  {
    if n >= base {
      SplitLast(n, base);
      var q, d := n / base, n % base;
      DigitRoundTrip(d);
      NumeralRoundTrip(q, base);
      NumeralSnoc(Numeral(q, base), Digit(d), base);
      assert Numeral(n, base) == Numeral(q, base) + [Digit(d)];
    } else {
      DigitRoundTrip(n);
      NumeralSnoc("", Digit(n), base);
      assert "" + [Digit(n)] == [Digit(n)];
    }
  }

  lemma NumeralSnoc(s: string, c: char, base: nat)
    requires NumeralValue(s, base).Some? && DigitValue(c).Some? && DigitValue(c).value < base
    ensures NumeralValue(s + [c], base) == Some(base * NumeralValue(s, base).value + DigitValue(c).value)
  {
    assert (s + [c])[..|s|] == s;
  }

  // Its characters are the digits of the number, from the highest that is not zero.
  lemma {:induction false} NumeralDigits(n: nat, base: nat, i: nat)
    requires 2 <= base <= 16 && i < |Numeral(n, base)|
    ensures var k := |Numeral(n, base)| - 1 - i;
            Numeral(n, base)[i] == "0123456789abcdef"[n / Pow(base, k) % base]
  {
    if n < base {
      SmallDigit(n, base);
      DigitIs(n);
    } else {
      SplitLast(n, base);
      DigitIs(n % base);
      var last := |Numeral(n, base)| - 1;
      if i == last {
        assert Pow(base, 0) == 1;
      } else {
        NumeralDigits(n / base, base, i);
        NextDigit(n, base, last - 1 - i);
      }
    }
  }

  lemma DigitIs(d: nat)
    requires d < 16
    ensures Digit(d) == "0123456789abcdef"[d]
  {
  }

  lemma {:induction false} NumeralLength(n: nat, base: nat, k: nat)
    requires 2 <= base <= 16 && k > 0
    ensures |Numeral(n, base)| == k <==> n < Pow(base, k) && (k == 1 || n >= Pow(base, k - 1))
  {
    assert Pow(base, 1) == base * Pow(base, 0);
    if n < base {
      if k > 1 {
        PowAtLeast(base, k - 1);
      }
    } else if k > 1 {
      SplitLast(n, base);
      NumeralLength(n / base, base, k - 1);
      QuotientBelow(n, base, Pow(base, k - 1));
      if k > 2 {
        QuotientBelow(n, base, Pow(base, k - 2));
      }
    }
  }

  lemma GroupRoundTrip(n: Group)
    ensures GroupValue(Hex(n)) == Some(n) && ':' !in Hex(n)
  {
    NumeralRoundTrip(n, 16);
    assert Pow(16, 1) == 16 && Pow(16, 2) == 256 && Pow(16, 3) == 4096 && Pow(16, 4) == 0x1_0000;
    NumeralLength(n, 16, |Hex(n)|);
    if |Hex(n)| > 4 {
      PowGrows(16, 4, |Hex(n)| - 1);
    }
  }

  // ----- The text form -----

  function Fields(s: string): (r: seq<string>)
    ensures |r| > 0
  {
    if s == "" then [""]
    else if s[0] == ':' then [""] + Fields(s[1..])
    else
      var rest := Fields(s[1..]);
      [[s[0]] + rest[0]] + rest[1..]
  }

  function Values(fields: seq<string>): Option<seq<nat>> {
    if fields == [] then Some([])
    else
      var first, rest := GroupValue(fields[0]), Values(fields[1..]);
      if first.None? || rest.None? then None else Some([first.value] + rest.value)
  }

  // Groups between single colons; none at all is the empty text.
  function GroupsOf(s: string): Option<seq<nat>> {
    if s == "" then Some([]) else Values(Fields(s))
  }

  predicate DoubleAt(s: string, k: nat) {
    k + 2 <= |s| && s[k] == ':' && s[k + 1] == ':'
  }

  // The place of the first `::`, or the length.
  function FindDouble(s: string): (k: nat)
    ensures k <= |s| && (k < |s| ==> DoubleAt(s, k))
  {
    if s == "" then 0 else if DoubleAt(s, 0) then 0 else 1 + FindDouble(s[1..])
  }

  function Zeros(n: nat): (r: seq<nat>)
    ensures |r| == n && forall i :: 0 <= i < n ==> r[i] == 0
  {
    seq(n, _ => 0)
  }

  // Section 2.2 of RFC 4291: eight groups, or fewer with one `::` that stands for the rest.
  function Expand(s: string): Option<seq<nat>> {
    var k := FindDouble(s);
    if k == |s| then
      var all := GroupsOf(s);
      if all.Some? && |all.value| == 8 then all else None
    else
      Compose(GroupsOf(s[..k]), GroupsOf(s[k + 2..]))
  }

  // Eight groups from those before and those after a `::`, which stands for at least one.
  function Compose(left: Option<seq<nat>>, right: Option<seq<nat>>): Option<seq<nat>> {
    if left.None? || right.None? || |left.value| + |right.value| >= 8 then None
    else Some(left.value + Zeros(8 - |left.value| - |right.value|) + right.value)
  }

  // ----- Groups joined by colons -----

  function Join(groups: seq<Group>): string {
    if groups == [] then ""
    else if |groups| == 1 then Hex(groups[0])
    else Hex(groups[0]) + ":" + Join(groups[1..])
  }

  lemma {:induction false} JoinNext(groups: seq<Group>, g: Group)
    ensures Join(groups + [g]) == if groups == [] then Hex(g) else Join(groups) + ":" + Hex(g)
  {
    if |groups| > 0 {
      assert (groups + [g])[1..] == groups[1..] + [g];
      JoinNext(groups[1..], g);
    } else {
      assert groups + [g] == [g];
    }
  }

  lemma {:induction false} FieldsOfField(f: string)
    requires ':' !in f
    ensures Fields(f) == [f]
  {
    if f != "" {
      FieldsOfField(f[1..]);
      assert [f[0]] + f[1..] == f;
      assert Fields(f[1..])[1..] == [];
    }
  }

  lemma {:induction false} FieldsCons(f: string, rest: string)
    requires ':' !in f
    ensures Fields(f + ":" + rest) == [f] + Fields(rest)
  {
    var s := f + ":" + rest;
    if f == "" {
      assert s[1..] == rest;
    } else {
      assert s[1..] == f[1..] + ":" + rest;
      FieldsCons(f[1..], rest);
      assert [f[0]] + f[1..] == f;
      assert ([f[1..]] + Fields(rest))[1..] == Fields(rest);
    }
  }

  lemma ValuesCons(f: string, n: nat, rest: seq<string>)
    requires GroupValue(f) == Some(n) && Values(rest).Some?
    ensures Values([f] + rest) == Some([n] + Values(rest).value)
  {
    assert ([f] + rest)[1..] == rest;
  }

  lemma {:induction false} JoinRoundTrip(groups: seq<Group>)
    ensures GroupsOf(Join(groups)) == Some(groups)
  {
    if groups != [] {
      GroupRoundTrip(groups[0]);
      JoinNotEmpty(groups);
      if |groups| == 1 {
        FieldsOfField(Hex(groups[0]));
        ValuesCons(Hex(groups[0]), groups[0], []);
        assert [Hex(groups[0])] + [] == [Hex(groups[0])] && [groups[0]] + [] == groups;
      } else {
        JoinNotEmpty(groups[1..]);
        JoinRoundTrip(groups[1..]);
        FieldsCons(Hex(groups[0]), Join(groups[1..]));
        ValuesCons(Hex(groups[0]), groups[0], Fields(Join(groups[1..])));
        assert [groups[0]] + groups[1..] == groups;
      }
    }
  }

  lemma JoinNotEmpty(groups: seq<Group>)
    requires groups != []
    ensures Join(groups) != ""
  {
  }

  // Colons in it stand alone, and neither first nor last.
  predicate Single(s: string) {
    && (forall k :: 0 <= k < |s| ==> !DoubleAt(s, k))
    && (s != "" ==> s[0] != ':' && s[|s| - 1] != ':')
  }

  lemma SingleCons(f: string, rest: string)
    requires f != "" && ':' !in f && rest != "" && Single(rest)
    ensures Single(f + ":" + rest)
  {
    var s := f + ":" + rest;
    forall k | 0 <= k < |s|
      ensures !DoubleAt(s, k)
    {
      if k > |f| {
        assert !DoubleAt(rest, k - |f| - 1);
      }
    }
    assert s[|s| - 1] == rest[|rest| - 1];
  }

  lemma {:induction false} JoinSingle(groups: seq<Group>)
    ensures Single(Join(groups))
  {
    if groups != [] {
      GroupRoundTrip(groups[0]);
      if |groups| > 1 {
        JoinSingle(groups[1..]);
        JoinNotEmpty(groups[1..]);
        SingleCons(Hex(groups[0]), Join(groups[1..]));
      }
    }
  }

  lemma {:induction false} FindDoubleIs(s: string, k: nat)
    requires k <= |s| && (forall j :: 0 <= j < k ==> !DoubleAt(s, j)) && (k < |s| ==> DoubleAt(s, k))
    ensures FindDouble(s) == k
  {
    if k > 0 {
      forall j | 0 <= j < k - 1
        ensures !DoubleAt(s[1..], j)
      {
        assert !DoubleAt(s, j + 1);
      }
      assert k < |s| ==> DoubleAt(s[1..], k - 1);
      FindDoubleIs(s[1..], k - 1);
    }
  }

  predicate OneDouble(s: string) {
    forall j, k :: 0 <= j < k < |s| ==> !(DoubleAt(s, j) && DoubleAt(s, k))
  }

  // Without a run of zeros the text is just the groups.
  lemma ExpandPlain(groups: seq<Group>)
    requires |groups| == 8
    ensures Expand(Join(groups)) == Some(groups)
  {
    JoinSingle(groups);
    FindDoubleIs(Join(groups), |Join(groups)|);
    JoinRoundTrip(groups);
  }

  // With one, the `::` between the two parts is the only one.
  lemma CompressedDouble(x: string, y: string)
    requires Single(x) && Single(y)
    ensures var s := x + "::" + y; FindDouble(s) == |x| && OneDouble(s)
  {
    var s := x + "::" + y;
    forall j | 0 <= j < |s| && j != |x|
      ensures !DoubleAt(s, j)
    {
      if j < |x| {
        assert !DoubleAt(x, j);
      } else if j > |x| + 1 {
        assert !DoubleAt(y, j - |x| - 2);
      }
    }
    FindDoubleIs(s, |x|);
  }

  lemma Parts(x: string, y: string)
    ensures (x + "::" + y)[..|x|] == x && (x + "::" + y)[|x| + 2..] == y
  {
  }

  lemma ExpandParts(s: string, k: nat, x: string, y: string)
    requires FindDouble(s) == k < |s| && s[..k] == x && s[k + 2..] == y
    ensures Expand(s) == Compose(GroupsOf(x), GroupsOf(y))
  {
  }

  lemma ExpandText(x: string, y: string)
    requires Single(x) && Single(y)
    ensures Expand(x + "::" + y) == Compose(GroupsOf(x), GroupsOf(y))
  {
    CompressedDouble(x, y);
    Parts(x, y);
    ExpandParts(x + "::" + y, |x|, x, y);
  }

  lemma Composed(left: seq<nat>, k: nat, right: seq<nat>, groups: seq<nat>)
    requires k > 0 && |left| + k + |right| == 8 && groups == left + Zeros(k) + right
    ensures Compose(Some(left), Some(right)) == Some(groups)
  {
  }

  lemma ExpandCompressed(left: seq<Group>, right: seq<Group>)
    ensures Expand(Join(left) + "::" + Join(right)) == Compose(Some(left), Some(right))
  {
    JoinSingle(left);
    JoinSingle(right);
    ExpandText(Join(left), Join(right));
    JoinRoundTrip(left);
    JoinRoundTrip(right);
  }

  // ----- The printer -----

  function FirstZero(groups: seq<Group>): (a: nat)
    ensures a <= |groups| && (a < |groups| ==> groups[a] == 0)
    ensures forall i :: 0 <= i < a ==> groups[i] != 0
  {
    if groups == [] || groups[0] == 0 then 0 else 1 + FirstZero(groups[1..])
  }

  // The end of the run of zeros that begins at a.
  function RunEnd(groups: seq<Group>, a: nat): (b: nat)
    requires a <= |groups|
    ensures a <= b <= |groups| && (b < |groups| ==> groups[b] != 0)
    ensures forall i :: a <= i < b ==> groups[i] == 0
    decreases |groups| - a
  {
    if a == |groups| || groups[a] != 0 then a else RunEnd(groups, a + 1)
  }

  // The first run of zeros is what `::` stands for, even if it is a single group.
  function Body(groups: seq<Group>): string {
    var a := FirstZero(groups);
    if a == |groups| then Join(groups) else Join(groups[..a]) + "::" + Join(groups[RunEnd(groups, a)..])
  }

  lemma ThreeParts(groups: seq<Group>, a: nat, b: nat)
    requires a <= b <= |groups| && forall i :: a <= i < b ==> groups[i] == 0
    ensures groups == groups[..a] + Zeros(b - a) + groups[b..]
  {
  }

  lemma CompressedFaithful(groups: seq<Group>, a: nat, b: nat)
    requires |groups| == 8 && a < b <= 8 && forall i :: a <= i < b ==> groups[i] == 0
    ensures Expand(Join(groups[..a]) + "::" + Join(groups[b..])) == Some(groups)
  {
    var left, right := groups[..a], groups[b..];
    ThreeParts(groups, a, b);
    Composed(left, b - a, right, groups);
    ExpandCompressed(left, right);
  }

  // The text means the eight groups, and it has at most one `::`.
  lemma PrinterFaithful(groups: seq<Group>)
    requires |groups| == 8
    ensures Expand(Body(groups)) == Some(groups)
  {
    var a := FirstZero(groups);
    if a == 8 {
      ExpandPlain(groups);
    } else {
      CompressedFaithful(groups, a, RunEnd(groups, a));
    }
  }

  // It is the groups as they are if none is zero; otherwise `::` stands for the first run of
  // zeros and for nothing else.
  lemma BodyMeans(groups: seq<Group>, a: nat, b: nat)
    requires a <= b <= |groups| && forall i :: 0 <= i < a ==> groups[i] != 0
    requires forall i :: a <= i < b ==> groups[i] == 0
    requires b < |groups| ==> a < b && groups[b] != 0
    ensures Body(groups) == if a == b then Join(groups) else Join(groups[..a]) + "::" + Join(groups[b..])
  {
    var c := FirstZero(groups);
    if a < b {
      assert groups[a] == 0;
      assert c == a;
      var d := RunEnd(groups, a);
      assert d == b;
    }
  }

  lemma AtMostOneDouble(groups: seq<Group>)
    ensures OneDouble(Body(groups))
  {
    var a := FirstZero(groups);
    if a == |groups| {
      JoinSingle(groups);
    } else {
      var b := RunEnd(groups, a);
      JoinSingle(groups[..a]);
      JoinSingle(groups[b..]);
      CompressedDouble(Join(groups[..a]), Join(groups[b..]));
    }
  }

  // What has been printed of the groups before i, when the first zeros are [a, b).
  ghost predicate Printed(groups: seq<Group>, a: nat, b: nat, i: nat, body: string, useZeros: bool)
    requires a <= b <= |groups| && i <= |groups|
  {
    if i <= a then !useZeros && body == Join(groups[..i])
    else if i <= b then !useZeros && body == Join(groups[..a])
    else useZeros && body == Join(groups[..a]) + "::" + Join(groups[b..i])
  }

  lemma SliceNext(groups: seq<Group>, from: nat, i: nat)
    requires from <= i < |groups|
    ensures groups[from..i + 1] == groups[from..i] + [groups[i]]
    ensures Join(groups[from..i + 1])
         == if from == i then Hex(groups[i]) else Join(groups[from..i]) + ":" + Hex(groups[i])
  {
    assert groups[from..i + 1] == groups[from..i] + [groups[i]];
    JoinNext(groups[from..i], groups[i]);
  }

  // One round of the loop.
  method PrintGroup(groups: seq<Group>, i: nat, body: string, useZeros: bool, ghost a: nat, ghost b: nat)
    returns (more: string, used: bool)
    requires i < |groups| && a == FirstZero(groups) && b == RunEnd(groups, a)
    requires Printed(groups, a, b, i, body, useZeros)
    ensures Printed(groups, a, b, i + 1, more, used)
  {
    more, used := body, useZeros;
    if groups[i] == 0 && !useZeros {
      return;
    }
    if i < a {
      SliceNext(groups, 0, i);
    } else {
      SliceNext(groups, b, i);
    }
    if i > 0 && groups[i - 1] == 0 && !useZeros {
      more := more + ":";
      used := true;
    }
    if i > 0 {
      more := more + ":";
    }
    more := more + Hex(groups[i]);
  }

  method Insert(groups: seq<Group>, port: Group) returns (os: string)
    requires |groups| == 8
    ensures os == "[" + Body(groups) + "]:" + Numeral(port, 10)
  {
    var body := "";
    var useZeros := false;
    ghost var a: nat := FirstZero(groups);
    ghost var b: nat := RunEnd(groups, a);
    for i := 0 to 8
      invariant Printed(groups, a, b, i, body, useZeros)
    {
      body, useZeros := PrintGroup(groups, i, body, useZeros, a, b);
    }
    assert groups[..8] == groups && groups[b..8] == groups[b..];
    if !useZeros && groups[7] == 0 {
      assert Join(groups[8..]) == "";
      body := body + "::";
    }
    os := "[" + body + "]:" + Numeral(port, 10);
  }
}
