// Sixteen-byte blocks, as values and as parts of byte buffers.
module Blocks {

  // Sixteen bytes. The wrapper keeps comparisons of blocks from being taken byte by byte.
  datatype Bytes = Bytes(at: seq<bv8>)
  type Block = b: Bytes | |b.at| == 16 witness Bytes(seq(16, _ => 0))

  // Addition of bytes. The lemmas below are all that the proofs about sums need of it.
  function Add(a: bv8, b: bv8): bv8 {
    a ^ b
  }

  lemma AddIsAssociative(a: bv8, b: bv8, c: bv8)
    ensures Add(Add(a, b), c) == Add(a, Add(b, c))
  {
  }

  lemma AddIsCommutative(a: bv8, b: bv8)
    ensures Add(a, b) == Add(b, a)
  {
  }

  lemma AddCancels(a: bv8, b: bv8)
    ensures Add(a, Add(a, b)) == b
  {
  }

  lemma AddZero(a: bv8)
    ensures Add(a, 0) == a && Add(0, a) == a
  {
  }

  lemma AddLaws(a: bv8, b: bv8, c: bv8, d: bv8)
    ensures Add(Add(a, b), c) == Add(a, Add(b, c))
    ensures Add(Add(a, b), c) == Add(Add(a, c), b)
    ensures Add(Add(a, c), Add(b, c)) == Add(a, b)
    ensures Add(Add(a, b), Add(c, d)) == Add(Add(a, c), Add(b, d))
  {
    hide Add;
    AddIsAssociative(a, b, c);
    AddIsAssociative(a, c, b);
    AddIsCommutative(b, c);
    AddIsAssociative(a, c, Add(b, c));
    AddCancels(c, b);
    AddIsAssociative(Add(a, b), c, d);
    AddIsAssociative(Add(a, c), b, d);
  }

  function Xor(a: Block, b: Block): Block {
    Bytes(seq(16, j requires 0 <= j < 16 => Add(a.at[j], b.at[j])))
  }

  // ---------------------------------------------------------------------------------------
  // Blocks in buffers

  // The block at offset o of a buffer.
  ghost function BlockAt(a: array<bv8>, o: nat): Block
    requires o + 16 <= a.Length
    reads a
  {
    Bytes(a[o..o + 16])
  }

  // Nothing outside the sixteen bytes at offset o has changed.
  twostate predicate OnlyBlockChanged(a: array<bv8>, o: nat)
    requires o + 16 <= a.Length
    reads a
  {
    forall k :: 0 <= k < a.Length && !(o <= k < o + 16) ==> a[k] == old(a[k])
  }

  lemma SameBlock(a: array<bv8>, o: nat, x: Block)
    requires o + 16 <= a.Length
    requires forall k :: 0 <= k < 16 ==> a[o + k] == x.at[k]
    ensures BlockAt(a, o) == x
  {
    assert a[o..o + 16] == x.at;
  }

  // Sixteen bytes copied from one buffer to another, or onto themselves.
  method CopyBlock(src: array<bv8>, s: nat, dst: array<bv8>, d: nat)
    requires s + 16 <= src.Length && d + 16 <= dst.Length && (src != dst || s == d)
    modifies dst
    ensures BlockAt(dst, d) == old(BlockAt(src, s))
    ensures OnlyBlockChanged(dst, d)
  {
    ghost var x := BlockAt(src, s);
    for j := 0 to 16
      invariant forall k :: 0 <= k < j ==> dst[d + k] == x.at[k]
      invariant forall k :: j <= k < 16 ==> src[s + k] == x.at[k]
      invariant OnlyBlockChanged(dst, d)
    {
      dst[d + j] := src[s + j];
    }
    assert dst[d..d + 16] == x.at;
  }

  // The first n blocks of the buffer are the first n of the sequence.
  ghost predicate BlocksWritten(a: array<bv8>, b: seq<Block>, n: nat)
    requires n <= |b| && 16 * n <= a.Length
    reads a
  {
    forall i :: 0 <= i < n ==> BlockAt(a, 16 * i) == b[i]
  }
}
