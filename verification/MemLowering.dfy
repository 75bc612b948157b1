/** The lowering of llvm.memset, llvm.memcpy and llvm.memmove inside transactions: a loop of
    eight-byte hook calls followed by a loop over the remaining bytes.
 */
module MemLowering {
  import opened Bytes

  const CHUNK: nat := 8

  /* ----- what the intrinsics mean ----- */

  function Filled(m: seq<Byte>, dst: nat, val: Byte, len: nat): (r: seq<Byte>)
    requires dst + len <= |m|
    ensures |r| == |m|
    ensures forall k :: 0 <= k < |m| ==> r[k] == if dst <= k < dst + len then val else m[k]
  {
    seq(|m|, k requires 0 <= k < |m| => if dst <= k < dst + len then val else m[k])
  }

  predicate InRange(m: seq<Byte>, dst: nat, src: nat, len: nat) {
    dst + len <= |m| && src + len <= |m|
  }

  // All of the source is read before any of the destination is written.
  function Moved(m: seq<Byte>, dst: nat, src: nat, len: nat): (r: seq<Byte>)
    requires InRange(m, dst, src, len)
    ensures |r| == |m|
    ensures forall k :: 0 <= k < |m| ==> r[k] == if dst <= k < dst + len then m[src + k - dst] else m[k]
  {
    seq(|m|, k requires 0 <= k < |m| => if dst <= k < dst + len then m[src + k - dst] else m[k])
  }

  /* ----- memset ----- */

  // The byte times 0x0101010101010101, in 64 bits.
  function Broadcast(val: Byte): nat {
    (val * 0x0101010101010101) % 0x1_0000_0000_0000_0000
  }

  // 0x01 repeated n times.
  function Ones(n: nat): nat {
    if n == 0 then 0 else 1 + 256 * Ones(n - 1)
  }

  lemma {:induction false} OnesBytes(val: Byte, n: nat)
    ensures forall k :: 0 <= k < n ==> ToLE(val * Ones(n), n)[k] == val
  {
    if n == 0 {
    } else {
      var v, rest := val * Ones(n), val * Ones(n - 1);
      assert v == val + 256 * rest;
      assert v % 256 == val && v / 256 == rest;
      OnesBytes(val, n - 1);
    }
  }

  lemma {:induction false} EightOnes()
    ensures Ones(CHUNK) == 0x0101010101010101
  {
    assert Ones(2) == 0x0101 && Ones(4) == 0x01010101 && Ones(6) == 0x010101010101;
  }

  lemma {:induction false} BroadcastIsOnes(val: Byte)
    ensures Broadcast(val) == val * Ones(CHUNK)
  {
    EightOnes();
    assert val * 0x0101010101010101 < 0x1_0000_0000_0000_0000;
  }

  lemma {:induction false} BroadcastBytes(val: Byte, n: nat)
    requires n == CHUNK
    ensures forall k :: 0 <= k < n ==> ToLE(Broadcast(val), n)[k] == val
  {
    BroadcastIsOnes(val);
    OnesBytes(val, n);
  }

  method Memset(mem: array<Byte>, dst: nat, val: Byte, len: nat)
    requires dst + len <= mem.Length
    modifies mem
    ensures mem[..] == Filled(old(mem[..]), dst, val, len)
  {
    ghost var was := mem[..];
    var aligned := len - len % CHUNK;
    var i := 0;
    while i != aligned
      invariant 0 <= i <= aligned && i % CHUNK == 0 && mem[..] == Filled(was, dst, val, i)
      decreases aligned - i
    {
      BroadcastBytes(val, CHUNK);
      WriteInt(mem, dst + i, Broadcast(val), CHUNK);
      i := i + CHUNK;
    }
    while i != len
      invariant aligned <= i <= len && mem[..] == Filled(was, dst, val, i)
      decreases len - i
    {
      mem[dst + i] := val;
      i := i + 1;
    }
  }

  /* ----- memcpy and memmove ----- */

  // The memory after c rounds of the chunk loop.
  function Chunks(m: seq<Byte>, dst: nat, src: nat, c: nat): (r: seq<Byte>)
    requires InRange(m, dst, src, CHUNK * c)
    ensures |r| == |m|
  {
    if c == 0 then m
    else var k := CHUNK * (c - 1); Moved(Chunks(m, dst, src, c - 1), dst + k, src + k, CHUNK)
  }

  // The memory after the byte loop, begun at offset first, has reached offset i.
  function Singles(m: seq<Byte>, dst: nat, src: nat, first: nat, i: nat): (r: seq<Byte>)
    requires first <= i && InRange(m, dst, src, i)
    ensures |r| == |m|
    decreases i - first
  {
    if i == first then m
    else var k := i - 1; Moved(Singles(m, dst, src, first, k), dst + k, src + k, 1)
  }

  // The emitted code: chunks up to the last multiple of eight, then single bytes.
  function Lowered(m: seq<Byte>, dst: nat, src: nat, len: nat): (r: seq<Byte>)
    requires InRange(m, dst, src, len)
    ensures |r| == |m|
  {
    var c := len / CHUNK;
    Singles(Chunks(m, dst, src, c), dst, src, CHUNK * c, len)
  }

  lemma {:induction false} PatchMoves(m: seq<Byte>, d: nat, s: nat, n: nat)
    requires InRange(m, d, s, n)
    ensures Patch(m, d, m[s..s + n]) == Moved(m, d, s, n)
  {
    var l, r := Patch(m, d, m[s..s + n]), Moved(m, d, s, n);
    assert forall k :: 0 <= k < |m| ==> l[k] == r[k];
  }

  // One pair of hook calls: tm_read of n bytes at s as an integer, tm_write of that at d.
  method CopyHooks(mem: array<Byte>, d: nat, s: nat, n: nat)
    requires InRange(mem[..], d, s, n)
    modifies mem
    ensures mem[..] == Moved(old(mem[..]), d, s, n)
  {
    ghost var m, bs := mem[..], mem[..][s..s + n];
    var v := ReadInt(mem, s, n);
    assert v == FromLE(bs) by { assert bs == mem[s..s + n]; }
    assert ToLE(v, n) == bs by { ToFrom(bs); }
    PatchMoves(m, d, s, n);
    WriteInt(mem, d, v, n);
  }

  method CopyChunks(mem: array<Byte>, dst: nat, src: nat, aligned: nat, ghost c: nat)
    requires InRange(mem[..], dst, src, aligned) && aligned == CHUNK * c
    modifies mem
    ensures mem[..] == Chunks(old(mem[..]), dst, src, c)
  {
    var i := 0;
    ghost var j := 0;
    while i != aligned
      invariant 0 <= j <= c && i == CHUNK * j && mem[..] == Chunks(old(mem[..]), dst, src, j)
      decreases aligned - i
    {
      CopyHooks(mem, dst + i, src + i, CHUNK);
      i, j := i + CHUNK, j + 1;
    }
  }

  method CopyTail(mem: array<Byte>, dst: nat, src: nat, aligned: nat, len: nat)
    requires InRange(mem[..], dst, src, len) && aligned <= len
    modifies mem
    ensures mem[..] == Singles(old(mem[..]), dst, src, aligned, len)
  {
    var i := aligned;
    while i != len
      invariant aligned <= i <= len && mem[..] == Singles(old(mem[..]), dst, src, aligned, i)
      decreases len - i
    {
      CopyHooks(mem, dst + i, src + i, 1);
      i := i + 1;
    }
  }

  method Memmove(mem: array<Byte>, dst: nat, src: nat, len: nat)
    requires InRange(mem[..], dst, src, len)
    modifies mem
    ensures mem[..] == Lowered(old(mem[..]), dst, src, len)
  {
    var aligned := len - len % CHUNK;
    CopyChunks(mem, dst, src, aligned, len / CHUNK);
    CopyTail(mem, dst, src, aligned, len);
  }

  // A unit that is read clear of what is already written continues the move.
  lemma {:induction false} UnitMoves(m: seq<Byte>, dst: nat, src: nat, i: nat, n: nat, end: nat)
    requires InRange(m, dst, src, end) && end == i + n
    requires i == 0 || dst <= src || src + end <= dst
    ensures Moved(Moved(m, dst, src, i), dst + i, src + i, n) == Moved(m, dst, src, end)
  {
    var c := Moved(m, dst, src, i);
    var l, r := Moved(c, dst + i, src + i, n), Moved(m, dst, src, end);
    assert forall k :: 0 <= k < |m| ==> l[k] == r[k];
  }

  lemma {:induction false} ChunksMove(m: seq<Byte>, dst: nat, src: nat, c: nat)
    requires InRange(m, dst, src, CHUNK * c)
    requires dst <= src || src + CHUNK * c <= dst || c == 1
    ensures Chunks(m, dst, src, c) == Moved(m, dst, src, CHUNK * c)
  {
    if c == 0 {
      assert Moved(m, dst, src, 0) == m;
    } else {
      var k, i := CHUNK * (c - 1), CHUNK * c;
      ChunksMove(m, dst, src, c - 1);
      UnitMoves(m, dst, src, k, CHUNK, i);
    }
  }

  lemma {:induction false} SinglesMove(m: seq<Byte>, dst: nat, src: nat, first: nat, i: nat)
    requires first <= i && InRange(m, dst, src, i)
    requires first == i || dst <= src || src + i <= dst
    ensures Singles(Moved(m, dst, src, first), dst, src, first, i) == Moved(m, dst, src, i)
    decreases i
  {
    if i <= first {
    } else {
      SinglesMove(m, dst, src, first, i - 1);
      UnitMoves(m, dst, src, i - 1, 1, i);
    }
  }

  // Forward copying is right if the destination is not above the source, or clear of it, or if
  // a single chunk does it all.
  lemma {:induction false} LoweredMoves(m: seq<Byte>, dst: nat, src: nat, len: nat)
    requires InRange(m, dst, src, len) && (dst <= src || src + len <= dst || len == CHUNK)
    ensures Lowered(m, dst, src, len) == Moved(m, dst, src, len)
  {
    var c := len / CHUNK;
    ChunksMove(m, dst, src, c);
    SinglesMove(m, dst, src, CHUNK * c, len);
  }

  /* ----- the overlap it gets wrong ----- */

  predicate AllZero(m: seq<Byte>) {
    forall k :: 0 <= k < |m| ==> m[k] == 0
  }

  lemma {:induction false} ZeroUnit(m: seq<Byte>, d: nat, s: nat, n: nat)
    requires d + n <= |m| && s + n <= |m|
    requires forall k :: s <= k < s + n ==> m[k] == 0
    requires forall k :: 0 <= k < |m| && !(d <= k < d + n) ==> m[k] == 0
    ensures AllZero(Moved(m, d, s, n))
  {
    var r := Moved(m, d, s, n);
    assert forall k :: 0 <= k < |m| ==> r[k] == 0;
  }

  lemma {:induction false} ZeroChunks(m: seq<Byte>, dst: nat, src: nat, c: nat)
    requires 0 < c && InRange(m, dst, src, CHUNK * c) && AllZero(Moved(m, dst, src, CHUNK))
    ensures AllZero(Chunks(m, dst, src, c))
  {
    if c == 1 {
      assert Chunks(m, dst, src, 0) == m;
    } else {
      var k := CHUNK * (c - 1);
      ZeroChunks(m, dst, src, c - 1);
      ZeroUnit(Chunks(m, dst, src, c - 1), dst + k, src + k, CHUNK);
    }
  }

  lemma {:induction false} ZeroSingles(m: seq<Byte>, dst: nat, src: nat, first: nat, i: nat)
    requires first <= i && InRange(m, dst, src, i)
    requires AllZero(m) || (first < i && AllZero(Moved(m, dst + first, src + first, 1)))
    ensures AllZero(Singles(m, dst, src, first, i))
    decreases i
  {
    var k := i - 1;
    if first < k || (first == k && AllZero(m)) {
      ZeroSingles(m, dst, src, first, k);
      ZeroUnit(Singles(m, dst, src, first, k), dst + k, src + k, 1);
    }
  }

  lemma {:induction false} FirstUnitZeroes(m: seq<Byte>, dst: nat, src: nat, len: nat, unit: nat)
    requires InRange(m, dst, src, len) && 0 < len && unit == if len < CHUNK then 1 else CHUNK
    requires AllZero(Moved(m, dst, src, unit))
    ensures AllZero(Lowered(m, dst, src, len))
  {
    var c := len / CHUNK;
    if len >= CHUNK {
      ZeroChunks(m, dst, src, c);
    }
    ZeroSingles(Chunks(m, dst, src, c), dst, src, CHUNK * c, len);
  }

  // A memory holding a single one, in a place that the first unit overwrites with a zero
  // before a later unit reads it.
  lemma {:induction false} OverlapLoses(size: nat, dst: nat, src: nat, len: nat) returns (m: seq<Byte>)
    requires dst + len <= size && src + len <= size && src < dst < src + len && len != CHUNK
    ensures |m| == size && Lowered(m, dst, src, len) != Moved(m, dst, src, len)
  {
    var unit := if len < CHUNK then 1 else CHUNK;
    var q := if dst - src < unit then src + unit else dst;
    m := seq(size, k => if k == q then 1 else 0);
    ZeroUnit(m, dst, src, unit);
    FirstUnitZeroes(m, dst, src, len, unit);
    assert Moved(m, dst, src, len)[dst + (q - src)] == 1;
  }

  // For which operands the lowering is memmove on every memory.
  lemma {:induction false} LoweredIsMemmoveIff(size: nat, dst: nat, src: nat, len: nat)
    requires dst + len <= size && src + len <= size
    ensures (forall m: seq<Byte> :: |m| == size ==> Lowered(m, dst, src, len) == Moved(m, dst, src, len))
            <==> (dst <= src || src + len <= dst || len == CHUNK)
  {
    if dst <= src || src + len <= dst || len == CHUNK {
      forall m: seq<Byte> | |m| == size ensures Lowered(m, dst, src, len) == Moved(m, dst, src, len) {
        LoweredMoves(m, dst, src, len);
      }
    } else {
      var m := OverlapLoses(size, dst, src, len);
    }
  }
}
