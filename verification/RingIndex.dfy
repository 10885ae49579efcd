/** Position arithmetic of the TCP ring buffer (src/net/tunnel/manager/buffer.rs). */
module RingIndex {
  import opened Common

  /** Bytes between the read position and the write position. */
  function Held(cap: nat, r: nat, w: nat): nat
    requires r < cap && w < cap
  {
    if w >= r then w - r else cap - r + w
  }

  /** The cell `i` places after position `p`, going around the end of the buffer. */
  function Cell(cap: nat, p: nat, i: nat): nat
    requires p < cap && i <= cap
  {
    if p + i < cap then p + i else p + i - cap
  }

  /** The cell that byte `k` of a copy of `count` bytes touches: the copy is split into a run up to
      the end of the buffer and a run from its start. */
  function SplitCell(cap: nat, p: nat, count: nat, k: nat): nat
    requires p < cap && k < count < cap
  {
    var first := Min(count, cap - p);
    if k < first then p + k else k - first
  }

  /** A position after `n` more bytes, as the source computes it. */
  function Advance(cap: nat, p: nat, n: nat): nat
    requires p < cap
  {
    (p + n) % cap
  }

  /** The bytes from `r` up to `w`, in order. */
  function Contents(buf: seq<byte>, r: nat, w: nat): seq<byte>
    requires r < |buf| && w < |buf|
  {
    seq(Held(|buf|, r, w), i requires 0 <= i < Held(|buf|, r, w) => buf[Cell(|buf|, r, i)])
  }

  lemma ModOnce(x: nat, cap: nat)
    requires 0 < cap <= x < 2 * cap
    ensures x % cap == x - cap
  {
    assert x == cap * 1 + (x - cap);
    assert x / cap == 1;
  }

  lemma ModNone(x: nat, cap: nat)
    requires x < cap
    ensures x % cap == x
  {
  }

  lemma AdvanceIsCell(cap: nat, p: nat, n: nat)
    requires p < cap && n <= cap
    ensures Advance(cap, p, n) == Cell(cap, p, n) < cap
  {
    if p + n >= cap {
      ModOnce(p + n, cap);
    } else {
      ModNone(p + n, cap);
    }
  }

  /** Removing a prefix: the read position moves, the rest of the contents stays. */
  lemma DropFront(buf: seq<byte>, r: nat, w: nat, n: nat)
    requires r < |buf| && w < |buf| && n <= Held(|buf|, r, w)
    ensures Advance(|buf|, r, n) < |buf|
    ensures Held(|buf|, Advance(|buf|, r, n), w) == Held(|buf|, r, w) - n
    ensures Contents(buf, Advance(|buf|, r, n), w) == Contents(buf, r, w)[n..]
  {
    AdvanceIsCell(|buf|, r, n);
  }

  /** Publishing a suffix: bytes already copied behind the write position join the contents. */
  lemma PushBack(buf: seq<byte>, r: nat, w: nat, data: seq<byte>)
    requires r < |buf| && w < |buf|
    requires Held(|buf|, r, w) + |data| < |buf|
    requires forall i :: 0 <= i < |data| ==> buf[Cell(|buf|, w, i)] == data[i]
    ensures Advance(|buf|, w, |data|) < |buf|
    ensures Held(|buf|, r, Advance(|buf|, w, |data|)) == Held(|buf|, r, w) + |data|
    ensures Contents(buf, r, Advance(|buf|, w, |data|)) == Contents(buf, r, w) + data
  {
    var cap := |buf|;
    AdvanceIsCell(cap, w, |data|);
    var h := Held(cap, r, w);
    forall i | h <= i < h + |data|
      ensures buf[Cell(cap, r, i)] == data[i - h]
    {
      assert Cell(cap, r, i) == Cell(cap, w, i - h);
    }
  }

  /** The cells behind the write position that a copy may touch are not among the held ones. */
  lemma FreeCellsAreNotHeld(cap: nat, r: nat, w: nat, k: nat)
    requires r < cap && w < cap && Held(cap, r, w) + k < cap
    ensures forall i :: 0 <= i < Held(cap, r, w) ==> Cell(cap, r, i) != Cell(cap, w, k)
  {
  }
}
