/** Little-endian byte images of unsigned integers. */
module Bytes {

  type Byte = b: nat | b < 256

  function FromLE(bs: seq<Byte>): nat {
    if bs == [] then 0 else bs[0] + 256 * FromLE(bs[1..])
  }

  function ToLE(v: nat, n: nat): (bs: seq<Byte>)
    ensures |bs| == n
  {
    if n == 0 then [] else [v % 256] + ToLE(v / 256, n - 1)
  }

  function Pow256(n: nat): (p: nat)
    ensures p > 0
  {
    if n == 0 then 1 else 256 * Pow256(n - 1)
  }

  lemma {:induction false} ToFrom(bs: seq<Byte>)
    ensures ToLE(FromLE(bs), |bs|) == bs && FromLE(bs) < Pow256(|bs|)
  {
    if bs == [] {
    } else {
      var v, rest := FromLE(bs), FromLE(bs[1..]);
      ToFrom(bs[1..]);
      assert v % 256 == bs[0] && v / 256 == rest by { assert v == bs[0] + 256 * rest; }
      assert bs == [bs[0]] + bs[1..];
    }
  }

  lemma {:induction false} FromTo(v: nat, n: nat)
    requires v < Pow256(n)
    ensures FromLE(ToLE(v, n)) == v
  {
    if n == 0 {
    } else {
      FromTo(v / 256, n - 1);
      assert ToLE(v, n)[1..] == ToLE(v / 256, n - 1);
    }
  }

  // m with bs written at a.
  function Patch(m: seq<Byte>, a: nat, bs: seq<Byte>): (r: seq<Byte>)
    requires a + |bs| <= |m|
    ensures |r| == |m|
    ensures forall k :: 0 <= k < |m| ==> r[k] == if a <= k < a + |bs| then bs[k - a] else m[k]
  {
    seq(|m|, k requires 0 <= k < |m| => if a <= k < a + |bs| then bs[k - a] else m[k])
  }

  // Little-endian hook calls of the runtime: n bytes at a.
  method WriteInt(mem: array<Byte>, a: nat, v: nat, n: nat)
    requires a + n <= mem.Length
    modifies mem
    ensures mem[..] == Patch(old(mem[..]), a, ToLE(v, n))
  {
    ghost var was := mem[..];
    var x := v;
    for i := 0 to n
      invariant ToLE(v, n)[i..] == ToLE(x, n - i)
      invariant forall k :: 0 <= k < mem.Length ==>
                  mem[k] == if a <= k < a + i then ToLE(v, n)[k - a] else was[k]
    {
      assert ToLE(v, n)[i] == x % 256;
      mem[a + i] := x % 256;
      x := x / 256;
      assert ToLE(v, n)[i + 1..] == ToLE(v, n)[i..][1..];
    }
  }

  method ReadInt(mem: array<Byte>, a: nat, n: nat) returns (v: nat)
    requires a + n <= mem.Length
    ensures v == FromLE(mem[a..a + n])
  {
    v := 0;
    var i := n;
    while i > 0
      invariant 0 <= i <= n && v == FromLE(mem[a + i..a + n])
    {
      i := i - 1;
      v := mem[a + i] + 256 * v;
      assert mem[a + i..a + n][1..] == mem[a + i + 1..a + n];
    }
  }
}
