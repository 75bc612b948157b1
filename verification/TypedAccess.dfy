/** Typed transactional access: values without a hook of their own width are moved byte by byte,
    and fixed-length vectors element by element at a stride taken from the element's scalar size.
 */
module TypedAccess {
  import opened Bytes

  /* ----- byte by byte ----- */

  lemma {:induction false} ByteOf(v: nat, n: nat, i: nat)
    requires i < n
    ensures ToLE(v, n)[i] == v / Pow256(i) % 256
  {
    if i == 0 {
    } else {
      ByteOf(v / 256, n - 1, i - 1);
      DivDiv(v, Pow256(i - 1));
    }
  }

  lemma {:induction false} DivDiv(v: nat, p: nat)
    requires p > 0
    ensures v / 256 / p == v / (256 * p)
  {
    var q := v / (256 * p);
    var r := v - q * (256 * p);
    assert 0 <= r < 256 * p;
    var s := r / 256;
    assert s < p && v / 256 == q * p + s by {
      assert v == 256 * (q * p) + r by { assert q * (256 * p) == 256 * (q * p); }
    }
    Quotient(q, p, s);
  }

  lemma {:induction false} Quotient(q: nat, p: nat, s: nat)
    requires s < p
    ensures (q * p + s) / p == q
  {
    var x := (q * p + s) / p;
    assert x * p <= q * p + s < x * p + p;
    if x < q {
      ProductGrows(x, q, p);
    } else if q < x {
      ProductGrows(q, x, p);
    }
  }

  lemma {:induction false} ProductGrows(x: nat, y: nat, p: nat)
    requires x < y
    ensures x * p + p <= y * p
  {
    assert (y - x) * p == y * p - x * p;
    assert (y - x - 1) * p >= 0;
  }

  lemma {:induction false} AppendHigh(bs: seq<Byte>, b: Byte)
    ensures FromLE(bs + [b]) == FromLE(bs) + b * Pow256(|bs|)
  {
    if bs == [] {
      assert [b][1..] == [];
    } else {
      assert (bs + [b])[1..] == bs[1..] + [b];
      AppendHigh(bs[1..], b);
      assert 256 * (b * Pow256(|bs| - 1)) == b * Pow256(|bs|);
    }
  }

  // Byte i of the value is the value shifted right by 8 * i and truncated.
  method WriteBytes(mem: array<Byte>, a: nat, v: nat, n: nat)
    requires a + n <= mem.Length
    modifies mem
    ensures mem[..] == Patch(old(mem[..]), a, ToLE(v, n))
  {
    ghost var was := mem[..];
    for i := 0 to n
      invariant forall k :: 0 <= k < mem.Length ==>
                  mem[k] == if a <= k < a + i then ToLE(v, n)[k - a] else was[k]
    {
      ByteOf(v, n, i);
      mem[a + i] := v / Pow256(i) % 256;
    }
  }

  // The bytes are widened, shifted left by 8 * i and joined.
  method ReadBytes(mem: array<Byte>, a: nat, n: nat) returns (v: nat)
    requires a + n <= mem.Length
    ensures v == FromLE(mem[a..a + n])
  {
    v := 0;
    for i := 0 to n
      invariant v == FromLE(mem[a..a + i])
    {
      assert mem[a..a + i + 1] == mem[a..a + i] + [mem[a + i]];
      AppendHigh(mem[a..a + i], mem[a + i]);
      v := v + mem[a + i] * Pow256(i);
    }
  }

  // Byte-wise writing leaves the little-endian image, and byte-wise reading returns the value.
  lemma {:induction false} BytewiseRoundTrips(m: seq<Byte>, a: nat, v: nat, n: nat)
    requires a + n <= |m| && v < Pow256(n)
    ensures Patch(m, a, ToLE(v, n))[a..a + n] == ToLE(v, n)
    ensures FromLE(Patch(m, a, ToLE(v, n))[a..a + n]) == v
  {
    var r := Patch(m, a, ToLE(v, n));
    assert forall k :: 0 <= k < n ==> r[a..a + n][k] == ToLE(v, n)[k];
    FromTo(v, n);
  }

  /* ----- elements ----- */

  // Element types: an integer of so many bits, a pointer, and any other type of so many whole bytes.
  datatype Elem = Int(bits: nat) | Pointer | Other(bytes: nat)

  // How an element is moved: the distance between elements, the bytes its value occupies, the bytes
  // its hook moves, and the bits of its value.
  datatype Layout = Layout(stride: nat, image: nat, hook: nat, bits: nat)

  predicate Sized(e: Elem) {
    (e.Int? ==> e.bits > 0) && (e.Other? ==> e.bytes > 0)
  }

  // Widths with a hook of their own, else the smallest of the three wide hooks, the last for all the rest.
  function IntHook(bits: nat): nat {
    if bits == 1 || bits == 8 then 1
    else if bits == 16 then 2
    else if bits == 32 then 4
    else if bits == 64 then 8
    else if bits <= 128 then 16
    else if bits <= 256 then 32
    else 64
  }

  // The stride is the scalar size, which is 0 for pointers, in whole bytes and at least one.
  function LayoutOf(e: Elem): Layout {
    match e
    case Int(b) => Layout(if b < 8 then 1 else b / 8, (b + 7) / 8, IntHook(b), b)
    case Pointer => Layout(1, 8, 8, 64)
    case Other(n) => Layout(n, n, n, 8 * n)
  }

  predicate Proper(l: Layout) {
    l.stride > 0 && l.hook > 0 && l.bits > 0 && l.image == (l.bits + 7) / 8
  }

  function Pow2(n: nat): (p: nat)
    ensures p > 0
  {
    if n == 0 then 1 else 2 * Pow2(n - 1)
  }

  lemma {:induction false} Pow2Grows(j: nat, k: nat)
    requires j < k
    ensures Pow2(j) < Pow2(k)
  {
    if j == k - 1 {
    } else {
      Pow2Grows(j, k - 1);
    }
  }

  lemma {:induction false} BytesAreBits(n: nat)
    ensures Pow2(8 * n) == Pow256(n)
  {
    if n == 0 {
    } else {
      BytesAreBits(n - 1);
      var k := 8 * n;
      assert Pow2(k) == 4 * Pow2(k - 2) && Pow2(k - 2) == 4 * Pow2(k - 4);
      assert Pow2(k - 4) == 4 * Pow2(k - 6) && Pow2(k - 6) == 4 * Pow2(k - 8);
    }
  }

  // Contents of the stack buffers that pass a value to and from a wide hook: byte i for element k.
  type Junk = (nat, nat) -> Byte

  function StoredByte(l: Layout, v: nat, junk: Junk, k: nat, i: nat): Byte {
    if i < l.image then ToLE(v, l.image)[i] else junk(k, i)
  }

  // What the hook writes for element k: the value, then whatever follows it in the buffer.
  function Stored(l: Layout, v: nat, junk: Junk, k: nat): (r: seq<Byte>)
    ensures |r| == l.hook
    ensures forall i :: 0 <= i < l.hook ==> r[i] == StoredByte(l, v, junk, k, i)
  {
    seq(l.hook, i requires 0 <= i < l.hook => StoredByte(l, v, junk, k, i))
  }

  function BufferByte(l: Layout, m: seq<Byte>, p: nat, rest: Junk, k: nat, i: nat): Byte
    requires p + l.hook <= |m|
  {
    if i < l.hook then m[p + i] else rest(k, i)
  }

  // The buffer after the read hook: its bytes from memory, the rest as it was. A hook wider than the element
  // also stores behind the buffer; what lies there on the stack is not part of the model.
  function Buffer(l: Layout, m: seq<Byte>, p: nat, rest: Junk, k: nat): (r: seq<Byte>)
    requires p + l.hook <= |m|
    ensures |r| == l.image
    ensures forall i :: 0 <= i < l.image ==> r[i] == BufferByte(l, m, p, rest, k, i)
  {
    seq(l.image, i requires 0 <= i < l.image => BufferByte(l, m, p, rest, k, i))
  }

  function LoadedAt(l: Layout, m: seq<Byte>, p: nat, rest: Junk, k: nat): nat
    requires p + l.hook <= |m|
  {
    FromLE(Buffer(l, m, p, rest, k)) % Pow2(l.bits)
  }

  predicate AllFit(l: Layout, vals: seq<nat>) {
    forall k :: 0 <= k < |vals| ==> vals[k] < Pow2(l.bits)
  }

  /* ----- vectors ----- */

  function Offset(k: nat, stride: nat): nat {
    if k == 0 then 0 else Offset(k - 1, stride) + stride
  }

  // Offsets are the emitted constants i * stride.
  lemma {:induction false} OffsetIsProduct(k: nat, stride: nat)
    ensures Offset(k, stride) == k * stride
  {
    if k == 0 {
    } else {
      OffsetIsProduct(k - 1, stride);
    }
  }

  lemma {:induction false} OffsetGrows(j: nat, k: nat, stride: nat)
    requires j < k
    ensures Offset(j, stride) + stride <= Offset(k, stride)
  {
    if j == k - 1 {
    } else {
      OffsetGrows(j, k - 1, stride);
    }
  }

  // Bytes from the first to the last one that n element writes touch.
  function Touched(l: Layout, n: nat): nat {
    if n == 0 then 0 else Offset(n - 1, l.stride) + l.hook
  }

  predicate Room(l: Layout, m: seq<Byte>, a: nat, n: nat) {
    n == 0 || a + Offset(n - 1, l.stride) + l.hook <= |m|
  }

  lemma {:induction false} RoomBelow(l: Layout, m: seq<Byte>, a: nat, i: nat, n: nat)
    requires i <= n && Room(l, m, a, n)
    ensures Room(l, m, a, i)
  {
    if 0 < i < n { OffsetGrows(i - 1, n - 1, l.stride); }
  }

  // The memory after the first k elements are written.
  function Written(l: Layout, m: seq<Byte>, a: nat, vals: seq<nat>, junk: Junk, k: nat): (r: seq<Byte>)
    requires k <= |vals| && Room(l, m, a, k)
    ensures |r| == |m|
    decreases k
  {
    if k == 0 then m
    else Patch(Written(l, m, a, vals, junk, k - 1), a + Offset(k - 1, l.stride), Stored(l, vals[k - 1], junk, k - 1))
  }

  function ReadVec(l: Layout, m: seq<Byte>, a: nat, rest: Junk, n: nat): (r: seq<nat>)
    requires Room(l, m, a, n)
    ensures |r| == n
    decreases n
  {
    if n == 0 then []
    else ReadVec(l, m, a, rest, n - 1) + [LoadedAt(l, m, a + Offset(n - 1, l.stride), rest, n - 1)]
  }

  method WriteElem(l: Layout, mem: array<Byte>, p: nat, v: nat, junk: Junk, k: nat)
    requires p + l.hook <= mem.Length
    modifies mem
    ensures mem[..] == Patch(old(mem[..]), p, Stored(l, v, junk, k))
  {
    ghost var was := mem[..];
    for i := 0 to l.hook
      invariant forall q :: 0 <= q < mem.Length ==>
                  mem[q] == if p <= q < p + i then Stored(l, v, junk, k)[q - p] else was[q]
    {
      if i < l.image {
        ByteOf(v, l.image, i);
        mem[p + i] := v / Pow256(i) % 256;
      } else {
        mem[p + i] := junk(k, i);
      }
    }
  }

  lemma {:induction false} WrittenNext(l: Layout, m: seq<Byte>, a: nat, vals: seq<nat>,
                                       junk: Junk, k: nat, r: seq<Byte>)
    requires k < |vals| && Room(l, m, a, k) && Room(l, m, a, k + 1) && r == Written(l, m, a, vals, junk, k)
    ensures Written(l, m, a, vals, junk, k + 1) == Patch(r, a + Offset(k, l.stride), Stored(l, vals[k], junk, k))
  {
  }

  method WriteNext(l: Layout, mem: array<Byte>, a: nat, vals: seq<nat>, junk: Junk, k: nat, ghost was: seq<Byte>)
    requires k < |vals| && Room(l, was, a, k) && Room(l, was, a, k + 1)
    requires mem[..] == Written(l, was, a, vals, junk, k)
    modifies mem
    ensures mem[..] == Written(l, was, a, vals, junk, k + 1)
  {
    WrittenNext(l, was, a, vals, junk, k, mem[..]);
    WriteElem(l, mem, a + Offset(k, l.stride), vals[k], junk, k);
  }

  method WriteVector(l: Layout, mem: array<Byte>, a: nat, vals: seq<nat>, junk: Junk)
    requires Room(l, mem[..], a, |vals|)
    modifies mem
    ensures mem[..] == Written(l, old(mem[..]), a, vals, junk, |vals|)
  {
    ghost var was := mem[..];
    for i := 0 to |vals|
      invariant Room(l, was, a, i) && mem[..] == Written(l, was, a, vals, junk, i)
    {
      RoomBelow(l, was, a, i + 1, |vals|);
      WriteNext(l, mem, a, vals, junk, i, was);
    }
  }

  method ReadElem(l: Layout, mem: array<Byte>, p: nat, rest: Junk, k: nat) returns (v: nat)
    requires p + l.hook <= mem.Length
    ensures v == LoadedAt(l, mem[..], p, rest, k)
  {
    var buffer := [];
    for i := 0 to l.image
      invariant |buffer| == i && forall j :: 0 <= j < i ==> buffer[j] == Buffer(l, mem[..], p, rest, k)[j]
    {
      buffer := buffer + [if i < l.hook then mem[p + i] else rest(k, i)];
    }
    assert buffer == Buffer(l, mem[..], p, rest, k);
    v := FromLE(buffer) % Pow2(l.bits);
  }

  method ReadVector(l: Layout, mem: array<Byte>, a: nat, n: nat, rest: Junk) returns (vals: seq<nat>)
    requires Room(l, mem[..], a, n)
    ensures vals == ReadVec(l, mem[..], a, rest, n)
  {
    ghost var m := mem[..];
    vals := [];
    for i := 0 to n
      invariant Room(l, m, a, i) && vals == ReadVec(l, m, a, rest, i)
    {
      RoomBelow(l, m, a, i + 1, n);
      var v := ReadElem(l, mem, a + Offset(i, l.stride), rest, i);
      vals := vals + [v];
    }
  }

  // The bytes of an element below the next one stay as they were written.
  lemma {:induction false} ImageKept(l: Layout, m: seq<Byte>, a: nat, vals: seq<nat>,
                                     junk: Junk, j: nat, k: nat, i: nat)
    requires j < k <= |vals| && Room(l, m, a, k) && i < l.hook && (i < l.stride || k == j + 1)
    ensures a + Offset(j, l.stride) + l.hook <= |m|
    ensures Written(l, m, a, vals, junk, k)[a + Offset(j, l.stride) + i] == Stored(l, vals[j], junk, j)[i]
    decreases k
  {
    var before := k - 1;
    RoomBelow(l, m, a, before, k);
    var r := Written(l, m, a, vals, junk, before);
    WrittenNext(l, m, a, vals, junk, before, r);
    if j == before {
    } else {
      RoomBelow(l, m, a, j + 1, k);
      OffsetGrows(j, before, l.stride);
      ImageKept(l, m, a, vals, junk, j, before, i);
    }
  }

  lemma {:induction false} OutsideKept(l: Layout, m: seq<Byte>, a: nat, vals: seq<nat>, junk: Junk, k: nat, q: nat)
    requires k <= |vals| && Room(l, m, a, k) && q < |m| && (q < a || a + Touched(l, k) <= q)
    ensures Written(l, m, a, vals, junk, k)[q] == m[q]
    decreases k
  {
    if k == 0 {
    } else {
      OutsideKept(l, m, a, vals, junk, k - 1, q);
    }
  }

  /* ----- the round trip ----- */

  predicate ElemIs(l: Layout, m: seq<Byte>, a: nat, rest: Junk, j: nat, v: nat) {
    a + Offset(j, l.stride) + l.hook <= |m| && LoadedAt(l, m, a + Offset(j, l.stride), rest, j) == v
  }

  lemma {:induction false} ValueLoads(l: Layout, bs: seq<Byte>, v: nat)
    requires Proper(l) && |bs| == l.image && v < Pow2(l.bits)
    requires forall i :: 0 <= i < l.image ==> bs[i] == ToLE(v, l.image)[i]
    ensures FromLE(bs) % Pow2(l.bits) == v
  {
    assert bs == ToLE(v, l.image);
    BitsInBytes(l.bits, l.image);
    FromTo(v, l.image);
    SmallModulo(v, Pow2(l.bits));
  }

  lemma {:induction false} SmallModulo(v: nat, p: nat)
    requires v < p
    ensures v % p == v
  {
  }

  lemma {:induction false} BitsInBytes(bits: nat, n: nat)
    requires bits <= 8 * n
    ensures Pow2(bits) <= Pow256(n)
  {
    BytesAreBits(n);
    if bits < 8 * n { Pow2Grows(bits, 8 * n); }
  }

  lemma {:induction false} BufferKept(l: Layout, m: seq<Byte>, a: nat, vals: seq<nat>,
                                      junk: Junk, rest: Junk, j: nat, i: nat)
    requires j < |vals| && Room(l, m, a, |vals|) && i < l.image <= l.hook && (l.image <= l.stride || |vals| <= 1)
    ensures a + Offset(j, l.stride) + l.hook <= |m|
    ensures BufferByte(l, Written(l, m, a, vals, junk, |vals|), a + Offset(j, l.stride), rest, j, i)
            == ToLE(vals[j], l.image)[i]
  {
    ImageKept(l, m, a, vals, junk, j, |vals|, i);
  }

  lemma {:induction false} ElementReadsBack(l: Layout, m: seq<Byte>, a: nat, vals: seq<nat>,
                                            junk: Junk, rest: Junk, j: nat)
    requires Proper(l) && j < |vals| && Room(l, m, a, |vals|) && AllFit(l, vals)
    requires l.image <= l.hook && (l.image <= l.stride || |vals| <= 1)
    ensures ElemIs(l, Written(l, m, a, vals, junk, |vals|), a, rest, j, vals[j])
  {
    var r, p := Written(l, m, a, vals, junk, |vals|), a + Offset(j, l.stride);
    RoomBelow(l, m, a, j + 1, |vals|);
    forall i | 0 <= i < l.image ensures BufferByte(l, r, p, rest, j, i) == ToLE(vals[j], l.image)[i] {
      BufferKept(l, m, a, vals, junk, rest, j, i);
    }
    ValueLoads(l, Buffer(l, r, p, rest, j), vals[j]);
  }

  lemma {:induction false} ReadVecIs(l: Layout, m: seq<Byte>, a: nat, rest: Junk, vals: seq<nat>, k: nat)
    requires k <= |vals| && Room(l, m, a, k)
    requires forall j :: 0 <= j < |vals| ==> ElemIs(l, m, a, rest, j, vals[j])
    ensures ReadVec(l, m, a, rest, k) == vals[..k]
    decreases k
  {
    if k == 0 {
    } else {
      ReadVecIs(l, m, a, rest, vals, k - 1);
      assert ElemIs(l, m, a, rest, k - 1, vals[k - 1]);
    }
  }

  lemma {:induction false} SplitRoundTrips(l: Layout, m: seq<Byte>, a: nat, vals: seq<nat>, junk: Junk, rest: Junk)
    requires Proper(l) && Room(l, m, a, |vals|) && AllFit(l, vals)
    requires |vals| == 0 || (l.image <= l.hook && (l.image <= l.stride || |vals| <= 1))
    ensures ReadVec(l, Written(l, m, a, vals, junk, |vals|), a, rest, |vals|) == vals
  {
    var r := Written(l, m, a, vals, junk, |vals|);
    forall j | 0 <= j < |vals| ensures ElemIs(l, r, a, rest, j, vals[j]) {
      ElementReadsBack(l, m, a, vals, junk, rest, j);
    }
    ReadVecIs(l, r, a, rest, vals, |vals|);
  }

  lemma {:induction false} FirstRead(l: Layout, m: seq<Byte>, a: nat, rest: Junk, n: nat)
    requires Room(l, m, a, n) && n > 0
    ensures a + l.hook <= |m| && ReadVec(l, m, a, rest, n)[0] == LoadedAt(l, m, a, rest, 0)
    decreases n
  {
    if n == 1 {
    } else {
      FirstRead(l, m, a, rest, n - 1);
    }
  }

  /* ----- elements that do not come back ----- */

  function Zero(k: nat, i: nat): Byte {
    0
  }

  lemma {:induction false} ZeroBytes(n: nat)
    ensures forall i :: 0 <= i < n ==> ToLE(0, n)[i] == 0
  {
    if n == 0 {
    } else {
      ZeroBytes(n - 1);
    }
  }

  lemma {:induction false} ZeroValue(bs: seq<Byte>)
    requires forall i :: 0 <= i < |bs| ==> bs[i] == 0
    ensures FromLE(bs) == 0
  {
    if bs == [] {
    } else {
      ZeroValue(bs[1..]);
    }
  }

  lemma {:induction false} StoredZero(l: Layout, k: nat)
    ensures forall i :: 0 <= i < l.hook ==> Stored(l, 0, Zero, k)[i] == 0
  {
    ZeroBytes(l.image);
  }

  lemma {:induction false} ZeroLands(l: Layout, m: seq<Byte>, a: nat, vals: seq<nat>, q: nat, x: nat)
    requires 2 <= |vals| && Room(l, m, a, 2) && l.stride <= q < l.stride + l.hook && x == a + q && vals[1] == 0
    ensures x < |m| && Written(l, m, a, vals, Zero, 2)[x] == 0
  {
    assert Offset(1, l.stride) == l.stride;
    var i := q - l.stride;
    assert a + Offset(1, l.stride) + i == x;
    ImageKept(l, m, a, vals, Zero, 1, 2, i);
    StoredZero(l, 1);
  }

  // Once element 1 has put zeros over the upper part of element 0, they stay.
  lemma {:induction false} ZeroStays(l: Layout, m: seq<Byte>, a: nat, vals: seq<nat>, k: nat, q: nat, x: nat)
    requires 2 <= k <= |vals| && Room(l, m, a, k) && l.stride <= q < l.stride + l.hook && x == a + q
    requires forall i :: 1 <= i < |vals| ==> vals[i] == 0
    ensures x < |m| && Written(l, m, a, vals, Zero, k)[x] == 0
    decreases k
  {
    if k == 2 {
      ZeroLands(l, m, a, vals, q, x);
    } else {
      var j := k - 1;
      RoomBelow(l, m, a, j, k);
      ZeroStays(l, m, a, vals, j, q, x);
      var r := Written(l, m, a, vals, Zero, j);
      WrittenNext(l, m, a, vals, Zero, j, r);
      assert vals[j] == 0;
      ZeroPatch(l, r, a + Offset(j, l.stride), j, x);
    }
  }

  lemma {:induction false} ZeroPatch(l: Layout, r: seq<Byte>, p: nat, k: nat, x: nat)
    requires p + l.hook <= |r| && x < |r| && r[x] == 0
    ensures Patch(r, p, Stored(l, 0, Zero, k))[x] == 0
  {
    StoredZero(l, k);
  }

  lemma {:induction false} FirstByteOf(l: Layout, m: seq<Byte>, a: nat, vals: seq<nat>, n: nat, q: nat)
    requires n == |vals| >= 2 && Room(l, m, a, n) && q < l.image <= l.hook
    requires vals[0] == Pow256(l.stride) && forall i :: 1 <= i < n ==> vals[i] == 0
    ensures a + q < |m| && Written(l, m, a, vals, Zero, n)[a + q] == 0
  {
    if q < l.stride {
      ImageKept(l, m, a, vals, Zero, 0, n, q);
      ByteOf(vals[0], l.image, q);
      PowerByte(l.stride, q);
    } else {
      ZeroStays(l, m, a, vals, n, q, a + q);
    }
  }

  // The bytes of 256^n below byte n are zero.
  lemma {:induction false} PowerByte(n: nat, q: nat)
    requires q < n
    ensures Pow256(n) / Pow256(q) % 256 == 0
  {
    PowerSplit(q, n - q);
    Quotient(Pow256(n - q), Pow256(q), 0);
  }

  lemma {:induction false} PowerSplit(q: nat, r: nat)
    ensures Pow256(q + r) == Pow256(r) * Pow256(q)
  {
    if q == 0 {
    } else {
      PowerSplit(q - 1, r);
      assert 256 * (Pow256(r) * Pow256(q - 1)) == Pow256(r) * (256 * Pow256(q - 1));
    }
  }

  lemma {:induction false} PowerFits(l: Layout, n: nat)
    requires Proper(l) && n < l.image
    ensures Pow256(n) < Pow2(l.bits)
  {
    BytesAreBits(n);
    Pow2Grows(8 * n, l.bits);
  }

  // Elements larger than the stride: the second one wipes out a value of the first.
  lemma {:induction false} OverlapLoses(l: Layout, m: seq<Byte>, a: nat, n: nat) returns (vals: seq<nat>)
    requires Proper(l) && Room(l, m, a, n) && n >= 2 && l.stride < l.image <= l.hook
    ensures |vals| == n && AllFit(l, vals)
    ensures ReadVec(l, Written(l, m, a, vals, Zero, n), a, Zero, n) != vals
  {
    vals := seq(n, i => if i == 0 then Pow256(l.stride) else 0);
    PowerFits(l, l.stride);
    var r := Written(l, m, a, vals, Zero, n);
    FirstRead(l, r, a, Zero, n);
    forall q | 0 <= q < l.image ensures BufferByte(l, r, a, Zero, 0, q) == 0 {
      FirstByteOf(l, m, a, vals, n, q);
    }
    ZerosLoad(l, r, a);
    assert ReadVec(l, r, a, Zero, n)[0] != vals[0];
  }

  lemma {:induction false} ZerosLoad(l: Layout, m: seq<Byte>, a: nat)
    requires a + l.hook <= |m| && forall q :: 0 <= q < l.image ==> BufferByte(l, m, a, Zero, 0, q) == 0
    ensures LoadedAt(l, m, a, Zero, 0) == 0
  {
    ZeroValue(Buffer(l, m, a, Zero, 0));
    SmallModulo(0, Pow2(l.bits));
  }

  function OneAt(h: nat): Junk {
    (k: nat, i: nat) => if i == h then 1 else 0
  }

  lemma {:induction false} UpdateByte(bs: seq<Byte>, h: nat)
    requires h < |bs| && bs[h] == 0
    ensures FromLE(bs[h := 1]) == FromLE(bs) + Pow256(h)
  {
    if h == 0 {
      assert bs[0 := 1][1..] == bs[1..];
    } else {
      UpdateByte(bs[1..], h - 1);
      assert bs[h := 1][1..] == bs[1..][h - 1 := 1];
    }
  }

  lemma {:induction false} ModuloMoves(x: nat, d: nat, p: nat)
    requires 0 < d < p
    ensures (x + d) % p != x % p
  {
    var q, r := x / p, x % p;
    assert x == q * p + r;
    if r + d < p {
      Remainder(q, p, r + d);
    } else {
      assert (q + 1) * p == q * p + p;
      Remainder(q + 1, p, r + d - p);
    }
  }

  lemma {:induction false} Remainder(q: nat, p: nat, s: nat)
    requires s < p
    ensures (q * p + s) % p == s
  {
    Quotient(q, p, s);
  }

  // A value larger than its hook: the top is whatever the buffer held.
  lemma {:induction false} ShortHookLoses(l: Layout, m: seq<Byte>, a: nat, n: nat)
    requires Proper(l) && Room(l, m, a, n) && n >= 1 && l.hook < l.image
    ensures ReadVec(l, m, a, Zero, n) != ReadVec(l, m, a, OneAt(l.hook), n)
  {
    FirstRead(l, m, a, Zero, n);
    FirstRead(l, m, a, OneAt(l.hook), n);
    var x, y := Buffer(l, m, a, Zero, 0), Buffer(l, m, a, OneAt(l.hook), 0);
    assert y == x[l.hook := 1];
    UpdateByte(x, l.hook);
    PowerFits(l, l.hook);
    ModuloMoves(FromLE(x), Pow256(l.hook), Pow2(l.bits));
  }

  // For any contents of the stack buffers, what is written is read back.
  ghost predicate RoundTrips(l: Layout, m: seq<Byte>, a: nat, n: nat)
    requires Room(l, m, a, n)
  {
    forall vals: seq<nat>, junk: Junk, rest: Junk :: |vals| == n && AllFit(l, vals) ==>
      ReadVec(l, Written(l, m, a, vals, junk, n), a, rest, n) == vals
  }

  lemma {:induction false} LayoutRoundTripsIff(l: Layout, m: seq<Byte>, a: nat, n: nat)
    requires Proper(l) && Room(l, m, a, n)
    ensures RoundTrips(l, m, a, n) <==> n == 0 || (l.image <= l.hook && (l.image <= l.stride || n == 1))
  {
    if n == 0 || (l.image <= l.hook && (l.image <= l.stride || n == 1)) {
      forall vals: seq<nat>, junk: Junk, rest: Junk | |vals| == n && AllFit(l, vals)
        ensures ReadVec(l, Written(l, m, a, vals, junk, n), a, rest, n) == vals
      {
        SplitRoundTrips(l, m, a, vals, junk, rest);
      }
    } else if l.image <= l.hook {
      OverlapFails(l, m, a, n);
    } else {
      ShortHookFails(l, m, a, n);
    }
  }

  lemma {:induction false} OverlapFails(l: Layout, m: seq<Byte>, a: nat, n: nat)
    requires Proper(l) && Room(l, m, a, n) && n >= 2 && l.stride < l.image <= l.hook
    ensures !RoundTrips(l, m, a, n)
  {
    var vals := OverlapLoses(l, m, a, n);
  }

  lemma {:induction false} ShortHookFails(l: Layout, m: seq<Byte>, a: nat, n: nat)
    requires Proper(l) && Room(l, m, a, n) && n >= 1 && l.hook < l.image
    ensures !RoundTrips(l, m, a, n)
  {
    var vals := seq(n, _ => 0);
    assert AllFit(l, vals);
    var r := Written(l, m, a, vals, Zero, n);
    ShortHookLoses(l, r, a, n);
    assert ReadVec(l, r, a, Zero, n) != vals || ReadVec(l, r, a, OneAt(l.hook), n) != vals;
  }

  // When the element-wise split of a vector gives back what was written: the integers are of a whole number
  // of bytes, or of less than one, and not wider than the widest hook; pointers do not come in vectors.
  lemma {:induction false} SplitRoundTripsIff(e: Elem, l: Layout, m: seq<Byte>, a: nat, n: nat)
    requires Sized(e) && l == LayoutOf(e) && Room(l, m, a, n)
    ensures RoundTrips(l, m, a, n) <==> n == 0 || match e
              case Int(b) => b <= 512 && (b % 8 == 0 || b < 8 || n == 1)
              case Pointer => n == 1
              case Other(_) => true
  {
    LayoutRoundTripsIff(l, m, a, n);
  }

  /* ----- what else is written ----- */

  // Bytes that a vector of n such elements occupies in memory.
  function Extent(e: Elem, n: nat): nat {
    (n * LayoutOf(e).bits + 7) / 8
  }

  // Outside the first `extent` bytes nothing changes, for any values and buffers.
  ghost predicate Confined(l: Layout, m: seq<Byte>, a: nat, n: nat, extent: nat)
    requires Room(l, m, a, n)
  {
    forall vals: seq<nat>, junk: Junk, q: nat :: |vals| == n && AllFit(l, vals) && q < |m| && !(a <= q < a + extent) ==>
      Written(l, m, a, vals, junk, n)[q] == m[q]
  }

  // The last byte touched can be made to differ from what was there.
  lemma {:induction false} LastByteChanges(l: Layout, m: seq<Byte>, a: nat, n: nat) returns (vals: seq<nat>, junk: Junk)
    requires Proper(l) && Room(l, m, a, n) && n > 0
    ensures |vals| == n && AllFit(l, vals)
    ensures var q := a + Touched(l, n) - 1; Written(l, m, a, vals, junk, n)[q] != m[q]
  {
    var q, top := a + Touched(l, n) - 1, l.hook - 1;
    var b := if m[q] == 0 then 1 else 0;
    junk := (k: nat, i: nat) => b;
    var v := if m[q] == 0 && top < l.image then Pow256(top) else 0;
    if top < l.image {
      PowerFits(l, top);
      ByteOf(v, l.image, top);
      Quotient(1, Pow256(top), 0);
      ZeroBytes(l.image);
    }
    vals := seq(n, i => if i == n - 1 then v else 0);
    ImageKept(l, m, a, vals, junk, n - 1, n, top);
  }

  // Nothing outside changes iff the hook of the last element ends inside.
  lemma {:induction false} ConfinedIff(l: Layout, m: seq<Byte>, a: nat, n: nat, extent: nat)
    requires Proper(l) && Room(l, m, a, n)
    ensures Confined(l, m, a, n, extent) <==> Touched(l, n) <= extent
  {
    if Touched(l, n) <= extent {
      forall vals: seq<nat>, junk: Junk, q: nat | |vals| == n && AllFit(l, vals) && q < |m| && !(a <= q < a + extent)
        ensures Written(l, m, a, vals, junk, n)[q] == m[q]
      {
        OutsideKept(l, m, a, vals, junk, n, q);
      }
    } else {
      var vals, junk := LastByteChanges(l, m, a, n);
    }
  }

  // How far an integer vector reaches past the last whole strides: n odd bits for each of n elements.
  lemma {:induction false} ExtentSplits(n: nat, b: nat)
    ensures (n * b + 7) / 8 == n * (b / 8) + (n * (b % 8) + 7) / 8
  {
    var s, t := b / 8, b % 8;
    assert n * b == 8 * (n * s) + n * t by { assert b == 8 * s + t; }
  }

  // Which integer vectors are written without touching what follows them, by width and number.  The widths that
  // have a hook of exactly their size always are, and so are those from 512 bits on.
  predicate IntConfined(b: nat, n: nat) {
    if b == 1 then n == 1
    else if b < 8 then false
    else if b == 8 || b == 16 || b == 32 || b == 64 then true
    else (if b <= 128 then 16 else if b <= 256 then 32 else 64) <= b / 8 + (n * (b % 8) + 7) / 8
  }

  lemma {:induction false} OneLess(n: nat, s: nat)
    requires n > 0
    ensures (n - 1) * s == n * s - s
  {
  }

  lemma {:induction false} Narrow(b: nat, n: nat)
    requires 0 < b < 8 && n > 0
    ensures n - 1 + IntHook(b) <= (n * b + 7) / 8 <==> IntConfined(b, n)
  {
    var p := n * b;
    assert p <= n * 7;
    assert b == 1 ==> p == n;
  }

  lemma {:induction false} Wide(b: nat, n: nat)
    requires b >= 8 && n > 0
    ensures (n - 1) * (b / 8) + IntHook(b) <= (n * b + 7) / 8 <==> IntConfined(b, n)
  {
    ExtentSplits(n, b);
    OneLess(n, b / 8);
    var odd := n * (b % 8);
    assert b % 8 == 0 ==> odd == 0;
  }

  lemma {:induction false} TouchedInt(b: nat, n: nat)
    requires b > 0 && n > 0
    ensures Touched(LayoutOf(Int(b)), n) <= Extent(Int(b), n) <==> IntConfined(b, n)
  {
    OffsetIsProduct(n - 1, LayoutOf(Int(b)).stride);
    if b < 8 { Narrow(b, n); } else { Wide(b, n); }
  }

  lemma {:induction false} TouchedOther(e: Elem, n: nat)
    requires !e.Int? && n > 0
    ensures Touched(LayoutOf(e), n) <= Extent(e, n)
  {
    OffsetIsProduct(n - 1, LayoutOf(e).stride);
    match e
    case Pointer => assert (n * 64 + 7) / 8 == n * 8;
    case Other(k) =>
      OneLess(n, k);
      ExtentSplits(n, 8 * k);
  }

  // A write stays inside the vector: always for pointers and other types, and for integers by their width.
  lemma {:induction false} SplitConfinedIff(e: Elem, l: Layout, m: seq<Byte>, a: nat, n: nat)
    requires Sized(e) && l == LayoutOf(e) && Room(l, m, a, n)
    ensures Confined(l, m, a, n, Extent(e, n)) <==> n == 0 || (e.Int? ==> IntConfined(e.bits, n))
  {
    ConfinedIff(l, m, a, n, Extent(e, n));
    if n == 0 {
    } else if e.Int? {
      TouchedInt(e.bits, n);
    } else {
      TouchedOther(e, n);
    }
  }

  // For whole bytes the number of elements does not matter.
  lemma {:induction false} WholeWidthsConfinedIff(b: nat, l: Layout, m: seq<Byte>, a: nat, n: nat)
    requires b > 0 && b % 8 == 0 && l == LayoutOf(Int(b)) && Room(l, m, a, n) && n > 0
    ensures Confined(l, m, a, n, Extent(Int(b), n)) <==> b in {8, 16, 32, 64, 128, 256} || b >= 512
  {
    SplitConfinedIff(Int(b), l, m, a, n);
    assert n * (b % 8) == 0;
  }

  // The last element lies where the source's constants put it.
  lemma {:induction false} LastElementAt(e: Elem, l: Layout, m: seq<Byte>, a: nat, vals: seq<nat>, junk: Junk, i: nat,
                                         at: nat)
    requires Sized(e) && l == LayoutOf(e) && |vals| > 0 && i < l.image && i < l.hook && Room(l, m, a, |vals|)
    requires at == (|vals| - 1) * match e case Int(b) => if b < 8 then 1 else b / 8 case Pointer => 1 case Other(n) => n
    ensures a + at + i < |m|
    ensures Written(l, m, a, vals, junk, |vals|)[a + at + i] == vals[|vals| - 1] / Pow256(i) % 256
  {
    var k := |vals| - 1;
    OffsetIsProduct(k, l.stride);
    ImageKept(l, m, a, vals, junk, k, |vals|, i);
    ByteOf(vals[k], l.image, i);
  }

  // Two i12 do not come back.
  lemma {:induction false} OddWidthLost(m: seq<Byte>, a: nat, l: Layout)
    requires l == LayoutOf(Int(12)) && Room(l, m, a, 2)
    ensures !RoundTrips(l, m, a, 2)
  {
    SplitRoundTripsIff(Int(12), l, m, a, 2);
  }

  // Two i24 come back, but what follows them in memory changes.
  lemma {:induction false} OddWidthSpills(m: seq<Byte>, a: nat, l: Layout)
    requires l == LayoutOf(Int(24)) && Room(l, m, a, 2)
    ensures RoundTrips(l, m, a, 2) && !Confined(l, m, a, 2, Extent(Int(24), 2))
  {
    SplitRoundTripsIff(Int(24), l, m, a, 2);
    SplitConfinedIff(Int(24), l, m, a, 2);
  }
}
