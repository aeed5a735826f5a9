/** Little-endian integers as bytes: the primitive under every layout of the examples
    (examples/appdata/cpp/wire.hpp and encoding/binary in the Go workers). */
module LittleEndian {
  import opened Common

  function Pow256(k: nat): (p: nat)
    ensures p > 0
  {
    if k == 0 then 1 else 256 * Pow256(k - 1)
  }

  /** The `k` little-endian bytes of a natural number. */
  function LE(u: nat, k: nat): (bs: seq<byte>)
    ensures |bs| == k
  {
    if k == 0 then [] else [u % 256] + LE(u / 256, k - 1)
  }

  function FromLE(bs: seq<byte>): nat {
    if bs == [] then 0 else bs[0] + 256 * FromLE(bs[1..])
  }

  /** The two are inverse below 256^k. */
  lemma {:induction false} FromLEofLE(u: nat, k: nat)
    requires u < Pow256(k)
    ensures FromLE(LE(u, k)) == u
  {
    if k > 0 {
      FromLEofLE(u / 256, k - 1);
      assert LE(u, k)[1..] == LE(u / 256, k - 1);
    }
  }

  lemma {:induction false} LEofFromLE(bs: seq<byte>)
    ensures FromLE(bs) < Pow256(|bs|) && LE(FromLE(bs), |bs|) == bs
  {
    if bs != [] {
      LEofFromLE(bs[1..]);
      var b, rest := bs[0], FromLE(bs[1..]);
      assert (b + 256 * rest) % 256 == b && (b + 256 * rest) / 256 == rest;
      assert bs == [bs[0]] + bs[1..];
    }
  }

  /** put_le: one byte at a time, by shifting. */
  method PutLE(out: seq<byte>, u: nat, nbytes: nat) returns (r: seq<byte>)
    ensures r == out + LE(u, nbytes)
  {
    r := out;
    var shifted := u;
    for i := 0 to nbytes
      invariant out + LE(u, nbytes) == r + LE(shifted, nbytes - i)
    {
      r := r + [shifted % 256];
      shifted := shifted / 256;
    }
  }

  /** take_le: the bits of each byte join at their place; the places are disjoint, so
      the bitwise or is a sum. */
  method TakeLE(data: seq<byte>, off: nat, nbytes: nat) returns (u: nat, next: nat)
    requires off + nbytes <= |data|
    ensures u == FromLE(data[off..off + nbytes]) && next == off + nbytes
  {
    u := 0;
    var place := 1;
    assert data[off..off] == [];
    for i := 0 to nbytes
      invariant place == Pow256(i) && u == FromLE(data[off..off + i])
    {
      FromLESnoc(data[off..off + i], data[off + i]);
      assert data[off..off + i + 1] == data[off..off + i] + [data[off + i]];
      var b: int := data[off + i];
      u := u + b * place;
      place := place * 256;
    }
    next := off + nbytes;
  }

  lemma {:induction false} FromLESnoc(bs: seq<byte>, b: byte)
    ensures FromLE(bs + [b]) == FromLE(bs) + b * Pow256(|bs|)
  {
    if bs == [] {
      assert bs + [b] == [b] && [b][1..] == [];
    } else {
      assert (bs + [b])[1..] == bs[1..] + [b];
      FromLESnoc(bs[1..], b);
      var x, p: nat := FromLE(bs[1..]), Pow256(|bs| - 1);
      assert 256 * (x + b * p) == 256 * x + b * (256 * p);
    }
  }
}
