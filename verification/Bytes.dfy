/** Little-endian fields, and writes into byte buffers and disks. */
module Bytes {
  import opened Common

  const U32_LIMIT: nat := 0x1_0000_0000
  const U64_LIMIT: nat := 0x1_0000_0000_0000_0000

  type u32 = x: nat | x < 0x1_0000_0000

  function U32(d: seq<byte>, o: nat): (r: nat)
    requires o + 4 <= |d|
    ensures r < U32_LIMIT
  {
    d[o] as nat + 0x100 * d[o + 1] as nat + 0x1_0000 * d[o + 2] as nat + 0x100_0000 * d[o + 3] as nat
  }

  function U64(d: seq<byte>, o: nat): (r: nat)
    requires o + 8 <= |d|
    ensures r < U64_LIMIT
  {
    U32(d, o) + 0x1_0000_0000 * U32(d, o + 4)
  }

  function Le32(v: nat): (r: seq<byte>)
    requires v < U32_LIMIT
    ensures |r| == 4 && U32(r, 0) == v
  {
    [(v % 0x100) as byte, (v / 0x100 % 0x100) as byte, (v / 0x1_0000 % 0x100) as byte, (v / 0x100_0000) as byte]
  }

  function Le64(v: nat): (r: seq<byte>)
    requires v < U64_LIMIT
    ensures |r| == 8 && U64(r, 0) == v
  {
    var lo, hi := Le32(v % 0x1_0000_0000), Le32(v / 0x1_0000_0000);
    assert U32(lo + hi, 0) == U32(lo, 0) && U32(lo + hi, 4) == U32(hi, 0);
    lo + hi
  }

  /** The buffer with `b` written over it at `o`. */
  function Splice(d: seq<byte>, o: nat, b: seq<byte>): (r: seq<byte>)
    requires o + |b| <= |d|
    ensures |r| == |d| && r[o..o + |b|] == b
    ensures forall x :: 0 <= x < |d| && !(o <= x < o + |b|) ==> r[x] == d[x]
    ensures forall x :: o <= x < o + |b| ==> r[x] == b[x - o]
  {
    d[..o] + b + d[o + |b|..]
  }

  function PutU32(d: seq<byte>, o: nat, v: nat): (r: seq<byte>)
    requires o + 4 <= |d| && v < U32_LIMIT
    ensures |r| == |d| && U32(r, o) == v
    ensures forall x :: 0 <= x < |d| && !(o <= x < o + 4) ==> r[x] == d[x]
  {
    var r := Splice(d, o, Le32(v));
    assert U32(r, o) == U32(Le32(v), 0);
    r
  }

  function PutU64(d: seq<byte>, o: nat, v: nat): (r: seq<byte>)
    requires o + 8 <= |d| && v < U64_LIMIT
    ensures |r| == |d| && U64(r, o) == v
    ensures forall x :: 0 <= x < |d| && !(o <= x < o + 8) ==> r[x] == d[x]
  {
    var r := Splice(d, o, Le64(v));
    assert U64(r, o) == U64(Le64(v), 0) by {
      assert forall i :: 0 <= i < 8 ==> r[o + i] == Le64(v)[i];
    }
    r
  }

  // ----- a disk and its patches -----

  datatype Patch = Patch(at: nat, bytes: seq<byte>)

  function Zeros(n: nat): (r: seq<byte>)
    ensures |r| == n && forall i :: 0 <= i < n ==> r[i] == 0
  {
    seq(n, _ => 0)
  }

  /** A file write: beyond the end, the file grows and any gap reads as zero. */
  function WriteAt(d: seq<byte>, p: Patch): (r: seq<byte>)
    ensures |r| == if p.bytes == [] then |d| else Max(|d|, p.at + |p.bytes|)
    ensures forall x :: p.at <= x < p.at + |p.bytes| ==> r[x] == p.bytes[x - p.at]
    ensures forall x :: 0 <= x < |d| && !(p.at <= x < p.at + |p.bytes|) ==> r[x] == d[x]
    ensures p.bytes != [] ==> forall x :: |d| <= x < p.at ==> r[x] == 0
  {
    if p.bytes == [] then d
    else
      var padded := if |d| < p.at + |p.bytes| then d + Zeros(p.at + |p.bytes| - |d|) else d;
      Splice(padded, p.at, p.bytes)
  }

  function WriteAll(d: seq<byte>, ps: seq<Patch>): seq<byte> {
    if ps == [] then d else WriteAt(WriteAll(d, ps[..|ps| - 1]), ps[|ps| - 1])
  }

  predicate Apart(a: nat, n: nat, b: nat, m: nat) {
    a + n <= b || b + m <= a
  }

  /** Patches inside the disk, no two of which overlap. */
  ghost predicate Separate(ps: seq<Patch>, size: nat) {
    && (forall i :: 0 <= i < |ps| ==> ps[i].at + |ps[i].bytes| <= size)
    && forall i, j :: 0 <= i < j < |ps| ==> Apart(ps[i].at, |ps[i].bytes|, ps[j].at, |ps[j].bytes|)
  }

  lemma {:induction false} WriteAllSize(d: seq<byte>, ps: seq<Patch>)
    requires Separate(ps, |d|)
    ensures |WriteAll(d, ps)| == |d|
  {
    if ps != [] {
      var n := |ps| - 1;
      assert Separate(ps[..n], |d|);
      WriteAllSize(d, ps[..n]);
      assert ps[n].at + |ps[n].bytes| <= |d|;
    }
  }

  lemma {:induction false} ByteReadsBack(d: seq<byte>, ps: seq<Patch>, i: nat, x: nat)
    requires Separate(ps, |d|) && i < |ps| && ps[i].at <= x < ps[i].at + |ps[i].bytes|
    ensures x < |WriteAll(d, ps)| && WriteAll(d, ps)[x] == ps[i].bytes[x - ps[i].at]
  {
    hide WriteAt;
    var n := |ps| - 1;
    var last := ps[n];
    if i < n {
      assert Separate(ps[..n], |d|);
      assert ps[..n][i] == ps[i];
      ByteReadsBack(d, ps[..n], i, x);
      assert Apart(ps[i].at, |ps[i].bytes|, last.at, |last.bytes|);
      assert WriteAt(WriteAll(d, ps[..n]), last)[x] == WriteAll(d, ps[..n])[x];
    } else {
      assert WriteAt(WriteAll(d, ps[..n]), last)[x] == last.bytes[x - last.at];
    }
  }

  /** Each of several separate patches can be read back. */
  lemma {:induction false} ReadsBack(d: seq<byte>, ps: seq<Patch>, i: nat)
    requires Separate(ps, |d|) && i < |ps|
    ensures |WriteAll(d, ps)| == |d| && ps[i].at + |ps[i].bytes| <= |d|
    ensures WriteAll(d, ps)[ps[i].at..ps[i].at + |ps[i].bytes|] == ps[i].bytes
  {
    hide WriteAll;
    WriteAllSize(d, ps);
    var p := ps[i];
    assert p.at + |p.bytes| <= |d|;
    var got := WriteAll(d, ps)[p.at..p.at + |p.bytes|];
    hide Separate;
    forall k | 0 <= k < |p.bytes| ensures got[k] == p.bytes[k] {
      ByteReadsBack(d, ps, i, p.at + k);
    }
  }

  /** A byte that no patch covers keeps its value, whatever the patches. */
  lemma {:induction false} Untouched(d: seq<byte>, ps: seq<Patch>, x: nat)
    requires x < |d| && forall i :: 0 <= i < |ps| ==> Apart(x, 1, ps[i].at, |ps[i].bytes|)
    ensures x < |WriteAll(d, ps)| && WriteAll(d, ps)[x] == d[x]
  {
    if ps != [] {
      var n := |ps| - 1;
      assert forall i :: 0 <= i < n ==> ps[..n][i] == ps[i];
      Untouched(d, ps[..n], x);
      assert Apart(x, 1, ps[n].at, |ps[n].bytes|);
    }
  }
}
