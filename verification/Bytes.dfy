// Byte strings and the one way the buffers change them: overwriting a range.
module Bytes {
  import opened Arith

  type byte = b: int | 0 <= b < 256

  datatype Endian = Little | Big

  // s with `src` written over the bytes that start at `pos`.
  function Splice(s: seq<byte>, pos: nat, src: seq<byte>): (t: seq<byte>)
    requires pos + |src| <= |s|
    ensures |t| == |s|
  {
    s[..pos] + src + s[pos + |src|..]
  }

  // `after` may be longer than `before`; apart from `src` at `pos` and the bytes
  // beyond the old end, nothing differs.
  ghost predicate Overwrites(before: seq<byte>, after: seq<byte>, pos: nat, src: seq<byte>) {
    && |before| <= |after|
    && pos <= |before|
    && pos + |src| <= |after|
    && after[..pos] == before[..pos]
    && after[pos..pos + |src|] == src
    && forall i :: pos + |src| <= i < |before| ==> after[i] == before[i]
  }

  lemma SpliceSplice(s: seq<byte>, pos: nat, a: seq<byte>, b: seq<byte>)
    requires pos + |a| + |b| <= |s|
    ensures Splice(Splice(s, pos, a), pos + |a|, b) == Splice(s, pos, a + b)
  {
  }

  // The next n bytes of a longer splice.
  lemma SpliceNext(before: seq<byte>, was: seq<byte>, pos: nat, src: seq<byte>, done: nat, n: nat)
    requires done + n <= |src| && pos + |src| <= |before| && was == Splice(before, pos, src[..done])
    ensures Splice(was, pos + done, src[done..done + n]) == Splice(before, pos, src[..done + n])
  {
    SpliceSplice(before, pos, src[..done], src[done..done + n]);
    assert src[..done + n] == src[..done] + src[done..done + n];
  }

  lemma SliceNext(s: seq<byte>, i: nat, j: nat, k: nat)
    requires i <= j <= k <= |s|
    ensures s[i..j] + s[j..k] == s[i..k]
  {
  }

  lemma SliceMore(s: seq<byte>, i: nat, j: nat, k: nat, a: seq<byte>, b: seq<byte>)
    requires i <= j <= k <= |s| && a == s[i..j] && b == s[j..k]
    ensures a + b == s[i..k]
  {
  }

  lemma SliceTake(s: seq<byte>, i: nat, j: nat, n: nat)
    requires i + n <= j <= |s|
    ensures s[i..j][..n] == s[i..i + n]
    ensures s[i..j][n..] == s[i + n..j]
  {
  }

  lemma DropDrop(s: seq<byte>, i: nat, j: nat)
    requires i + j <= |s|
    ensures s[i..][j..] == s[i + j..]
  {
  }

  // Two adjacent writes are one write of the concatenation.
  lemma OverwritesTwice(s: seq<byte>, t: seq<byte>, u: seq<byte>, pos: nat, a: seq<byte>, b: seq<byte>)
    requires Overwrites(s, t, pos, a)
    requires Overwrites(t, u, pos + |a|, b)
    ensures Overwrites(s, u, pos, a + b)
  {
    assert u[..pos] == u[..pos + |a|][..pos] == t[..pos + |a|][..pos] == t[..pos];
    assert u[pos..pos + |a| + |b|] == u[..pos + |a|][pos..] + u[pos + |a|..pos + |a| + |b|];
    assert t[..pos + |a|][pos..] == t[pos..pos + |a|];
  }

  // Growing and then splicing overwrites.
  lemma SpliceOverwrites(before: seq<byte>, grown: seq<byte>, pos: nat, src: seq<byte>)
    requires before <= grown && pos <= |before| && pos + |src| <= |grown|
    ensures Overwrites(before, Splice(grown, pos, src), pos, src)
  {
    var after := Splice(grown, pos, src);
    assert after[..pos] == grown[..pos] == before[..pos];
  }

  // Equal blocks laid end to end.
  ghost predicate Uniform(blocks: seq<seq<byte>>, n: nat) {
    forall k :: 0 <= k < |blocks| ==> |blocks[k]| == n
  }

  // The first k blocks.
  function Flat(blocks: seq<seq<byte>>, k: nat): seq<byte>
    requires k <= |blocks|
  {
    if k == 0 then [] else Flat(blocks, k - 1) + blocks[k - 1]
  }

  lemma {:induction false} FlatLength(blocks: seq<seq<byte>>, n: nat, k: nat)
    requires Uniform(blocks, n) && k <= |blocks|
    ensures |Flat(blocks, k)| == Times(k, n)
  {
    if k > 0 {
      FlatLength(blocks, n, k - 1);
    }
  }

  lemma {:induction false} FlatSame(blocks: seq<seq<byte>>, others: seq<seq<byte>>, k: nat)
    requires k <= |blocks| && k <= |others|
    requires forall i :: 0 <= i < k ==> blocks[i] == others[i]
    ensures Flat(blocks, k) == Flat(others, k)
  {
    if k > 0 {
      FlatSame(blocks, others, k - 1);
    }
  }

  lemma {:induction false} FlatGrows(blocks: seq<seq<byte>>, j: nat, k: nat)
    requires j <= k <= |blocks|
    ensures Flat(blocks, j) <= Flat(blocks, k)
  {
    if j < k {
      FlatGrows(blocks, j, k - 1);
    }
  }

  // Adding blocks only adds bytes.
  lemma FlatPrefix(blocks: seq<seq<byte>>, more: seq<seq<byte>>)
    requires blocks <= more
    ensures Flat(blocks, |blocks|) <= Flat(more, |more|)
  {
    FlatSame(blocks, more, |blocks|);
    FlatGrows(more, |blocks|, |more|);
  }

  // A stretch of block k, seen in the flat string.
  lemma FlatSlice(blocks: seq<seq<byte>>, n: nat, k: nat, from: nat, to: nat)
    requires Uniform(blocks, n) && k < |blocks| && from <= to <= n
    ensures Times(k, n) + to <= |Flat(blocks, |blocks|)|
    ensures Flat(blocks, |blocks|)[Times(k, n) + from..Times(k, n) + to] == blocks[k][from..to]
  {
    FlatLength(blocks, n, k);
    FlatGrows(blocks, k + 1, |blocks|);
    SliceMiddle(Flat(blocks, k), blocks[k], Flat(blocks, |blocks|)[Times(k + 1, n)..], from, to);
  }

  lemma SliceMiddle(a: seq<byte>, b: seq<byte>, c: seq<byte>, from: nat, to: nat)
    requires from <= to <= |b|
    ensures (a + b + c)[|a| + from..|a| + to] == b[from..to]
  {
  }

  // Writing into block k splices the flat string.
  lemma {:induction false} FlatSplice(blocks: seq<seq<byte>>, n: nat, k: nat, offset: nat, src: seq<byte>, m: nat)
    requires Uniform(blocks, n) && k < m <= |blocks| && offset + |src| <= n
    ensures Times(k, n) + offset + |src| <= |Flat(blocks, m)|
    ensures Flat(blocks[k := Splice(blocks[k], offset, src)], m)
         == Splice(Flat(blocks, m), Times(k, n) + offset, src)
  {
    var after := blocks[k := Splice(blocks[k], offset, src)];
    FlatLength(blocks, n, k);
    if m == k + 1 {
      FlatSame(blocks, after, k);
      SpliceRight(Flat(blocks, k), blocks[k], offset, src);
    } else {
      FlatSplice(blocks, n, k, offset, src, m - 1);
      SpliceLeft(Flat(blocks, m - 1), blocks[m - 1], Times(k, n) + offset, src);
    }
  }

  lemma SpliceRight(a: seq<byte>, b: seq<byte>, offset: nat, src: seq<byte>)
    requires offset + |src| <= |b|
    ensures Splice(a + b, |a| + offset, src) == a + Splice(b, offset, src)
  {
  }

  lemma SpliceLeft(a: seq<byte>, b: seq<byte>, offset: nat, src: seq<byte>)
    requires offset + |src| <= |a|
    ensures Splice(a + b, offset, src) == Splice(a, offset, src) + b
  {
  }

  // Codes laid end to end.
  function Concat(codes: seq<seq<byte>>): seq<byte> {
    if codes == [] then [] else codes[0] + Concat(codes[1..])
  }

  lemma {:induction false} ConcatNext(codes: seq<seq<byte>>, n: nat)
    requires n < |codes|
    ensures Concat(codes[..n + 1]) == Concat(codes[..n]) + codes[n]
    ensures |Concat(codes[..n + 1])| <= |Concat(codes)|
  {
    if n > 0 {
      ConcatNext(codes[1..], n - 1);
      assert codes[..n + 1][1..] == codes[1..][..n] && codes[..n][1..] == codes[1..][..n - 1];
    }
  }
}
