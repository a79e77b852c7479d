/** The distributed-compute example the profiler is exercised with: each
    rank owns a contiguous chunk of a vector of 32-byte field elements,
    allocates twice that much working space, and rewrites its chunk in
    place. MPI start-up, barriers, sleeps and printing are outside the
    model; the rank and world size are inputs. */
module MpiCompute {
  import opened Arith

  const FieldElementSize: nat := 32

  /** `u8`. */
  newtype byte = x: int | 0 <= x < 256

  /** `[u8; FIELD_ELEMENT_SIZE]`, a value copied on assignment. */
  type FieldElement = e: seq<byte> | |e| == FieldElementSize witness seq(32, _ => 0)

  /** The rank's view of the problem. `world_size` comes from MPI and is at
      least one; a rank lies in `[0, world_size)`. */
  datatype ComputeConfig = ComputeConfig(problemSize: nat, rank: int, worldSize: int)
  {
    predicate Valid() {
      worldSize >= 1 && 0 <= rank < worldSize
    }

    function Base(): nat
      requires worldSize >= 1
    {
      problemSize / worldSize
    }
  }

  // ---------------------------------------------------------------------------
  // The partition

  /** `chunk_size`: every rank gets `problem_size / world_size` elements and
      the last one also gets the remainder. */
  function ChunkSize(c: ComputeConfig): (n: nat)
    requires c.Valid()
    ensures c.rank < c.worldSize - 1 ==> n == c.Base()
    ensures c.rank == c.worldSize - 1 ==> n == c.problemSize - c.Base() * (c.worldSize - 1)
  {
    var baseSize := c.problemSize / c.worldSize;
    var remainder := c.problemSize % c.worldSize;
    if c.rank == c.worldSize - 1 then baseSize + remainder else baseSize
  }

  /** `chunk_start`: the first global index of the rank's chunk. */
  function ChunkStart(c: ComputeConfig): (s: nat)
    requires c.Valid()
    ensures s + ChunkSize(c) <= c.problemSize
  {
    ChunkBound(c);
    (c.problemSize / c.worldSize) * c.rank
  }

  lemma ChunkBound(c: ComputeConfig)
    requires c.Valid()
    ensures c.Base() * c.rank + ChunkSize(c) <= c.problemSize
  {
    var b := c.Base();
    assert b * c.worldSize <= c.problemSize;
    MulMono(b, c.rank + 1, c.worldSize);
  }

  /** The same configuration seen from another rank. */
  function AtRank(c: ComputeConfig, r: int): ComputeConfig {
    c.(rank := r)
  }

  /** Each chunk ends where the next rank's begins. */
  lemma ChunksAdjacent(c: ComputeConfig, r: int)
    requires c.worldSize >= 1 && 0 <= r < c.worldSize - 1
    ensures ChunkStart(AtRank(c, r)) + ChunkSize(AtRank(c, r)) == ChunkStart(AtRank(c, r + 1))
  {
    var b := c.Base();
    assert b * r + b == b * (r + 1);
  }

  /** The first chunk starts at 0 and the last one ends at `problem_size`. */
  lemma ChunksSpan(c: ComputeConfig)
    requires c.worldSize >= 1
    ensures ChunkStart(AtRank(c, 0)) == 0
    ensures ChunkStart(AtRank(c, c.worldSize - 1)) + ChunkSize(AtRank(c, c.worldSize - 1)) == c.problemSize
  {
  }

  /** The sizes of the chunks of ranks `0 .. n-1`. */
  function ChunksTotal(c: ComputeConfig, n: nat): nat
    requires c.worldSize >= 1 && n <= c.worldSize
  {
    if n == 0 then 0 else ChunksTotal(c, n - 1) + ChunkSize(AtRank(c, n - 1))
  }

  /** The ranks before `n` hold exactly the elements before `n`'s start. */
  lemma {:induction false} ChunksTotalIsStart(c: ComputeConfig, n: nat)
    requires c.worldSize >= 1 && n <= c.worldSize
    ensures n < c.worldSize ==> ChunksTotal(c, n) == ChunkStart(AtRank(c, n))
    ensures n == c.worldSize ==> ChunksTotal(c, n) == c.problemSize
  {
    if n > 0 {
      ChunksTotalIsStart(c, n - 1);
      if n < c.worldSize {
        ChunksAdjacent(c, n - 1);
      } else {
        ChunksSpan(c);
      }
    }
  }

  /** Summed over all ranks the chunks cover the problem exactly once. */
  lemma ChunksSum(c: ComputeConfig)
    requires c.worldSize >= 1
    ensures ChunksTotal(c, c.worldSize) == c.problemSize
  {
    ChunksTotalIsStart(c, c.worldSize);
  }

  predicate InChunk(c: ComputeConfig, g: nat)
    requires c.Valid()
  {
    ChunkStart(c) <= g < ChunkStart(c) + ChunkSize(c)
  }

  /** The rank that owns global index `g`. */
  function Owner(c: ComputeConfig, g: nat): int
    requires c.worldSize >= 1
  {
    var b := c.Base();
    if b == 0 || g / b >= c.worldSize - 1 then c.worldSize - 1 else g / b
  }

  /** Every index of the problem lies in exactly one rank's chunk. */
  lemma ChunksPartition(c: ComputeConfig, g: nat, r: int)
    requires c.worldSize >= 1 && g < c.problemSize && 0 <= r < c.worldSize
    ensures InChunk(AtRank(c, r), g) <==> r == Owner(c, g)
  {
    OwnerInChunk(c, g);
    if InChunk(AtRank(c, r), g) {
      ChunkOwner(c, g, r);
    }
  }

  lemma OwnerInChunk(c: ComputeConfig, g: nat)
    requires c.worldSize >= 1 && g < c.problemSize
    ensures 0 <= Owner(c, g) < c.worldSize && InChunk(AtRank(c, Owner(c, g)), g)
  {
    var b := c.Base();
    if b > 0 {
      var q := g / b;
      assert g == b * q + g % b;
      MulMono(b, c.worldSize - 1, q);
      assert b * (q + 1) == b * q + b;
    }
  }

  lemma ChunkOwner(c: ComputeConfig, g: nat, r: int)
    requires c.worldSize >= 1 && g < c.problemSize && 0 <= r < c.worldSize
    requires InChunk(AtRank(c, r), g)
    ensures r == Owner(c, g)
  {
    var b := c.Base();
    if r < c.worldSize - 1 {
      DivUnique(g, b, r, g - b * r);
    } else if b > 0 {
      var q := g / b;
      assert g == q * b + g % b;
      MulMono(b, q + 1, c.worldSize - 1);
      assert b * (q + 1) == b * q + b;
    }
  }

  // ---------------------------------------------------------------------------
  // Elements

  /** The first `n` little-endian bytes of `x`. */
  function LeBytes(x: nat, n: nat): (bs: seq<byte>)
    ensures |bs| == n
  {
    if n == 0 then [] else [(x % 256) as byte] + LeBytes(x / 256, n - 1)
  }

  /** The number little-endian bytes denote. */
  function LeValue(bs: seq<byte>): nat {
    if bs == [] then 0 else bs[0] as nat + 256 * LeValue(bs[1..])
  }

  function Pow256(n: nat): (p: nat)
    ensures p >= 1
  {
    if n == 0 then 1 else 256 * Pow256(n - 1)
  }

  /** `to_le_bytes` keeps every value that fits. */
  lemma {:induction false} LeBytesRoundTrip(x: nat, n: nat)
    requires x < Pow256(n)
    ensures LeValue(LeBytes(x, n)) == x
  {
    if n > 0 {
      var y := x / 256;
      assert x == y * 256 + x % 256;
      assert y < Pow256(n - 1) by {
        MulMono(256, Pow256(n - 1), y);
      }
      LeBytesRoundTrip(y, n - 1);
      assert LeBytes(x, n)[1..] == LeBytes(y, n - 1);
    }
  }

  /** The element a rank starts with at global index `g`: the eight
      little-endian bytes of `g`, then zeros. */
  function InitialElement(g: nat): (e: FieldElement)
    ensures forall k :: 8 <= k < FieldElementSize ==> e[k] == 0
  {
    LeBytes(g, 8) + seq(24, _ => 0)
  }

  /** The first eight bytes give back the global index. */
  lemma InitialElementIndex(g: nat)
    requires g < Pow256(8)
    ensures LeValue(InitialElement(g)[..8]) == g
  {
    assert InitialElement(g)[..8] == LeBytes(g, 8);
    LeBytesRoundTrip(g, 8);
  }

  function Pow2(k: nat): (p: nat)
    ensures p >= 1
  {
    if k == 0 then 1 else 2 * Pow2(k - 1)
  }

  /** Bitwise exclusive or of the low `k` bits of `a` and `b`, bit by bit
      from the least significant. */
  function XorBits(a: nat, b: nat, k: nat): (r: nat)
    ensures r < Pow2(k)
  {
    if k == 0 then 0
    else (if a % 2 == b % 2 then 0 else 1) + 2 * XorBits(a / 2, b / 2, k - 1)
  }

  /** `^` on `u8`. */
  function Xor(a: byte, b: byte): byte {
    assert Pow2(8) == 256;
    XorBits(a as nat, b as nat, 8) as byte
  }

  /** Exclusive or with the same value twice changes nothing. */
  lemma {:induction false} XorBitsTwice(a: nat, b: nat, k: nat)
    requires a < Pow2(k)
    ensures XorBits(XorBits(a, b, k), b, k) == a
  {
    if k > 0 {
      var bit := if a % 2 == b % 2 then 0 else 1;
      var rest := XorBits(a / 2, b / 2, k - 1);
      var c := XorBits(a, b, k);
      assert c == bit + 2 * rest;
      HalveBitAndRest(bit, rest);
      assert a / 2 < Pow2(k - 1);
      XorBitsTwice(a / 2, b / 2, k - 1);
      assert (if c % 2 == b % 2 then 0 else 1) == a % 2;
      assert XorBits(c, b, k) == a % 2 + 2 * (a / 2);
    }
  }

  /** A low bit plus twice the rest splits back into the two. */
  lemma HalveBitAndRest(bit: nat, rest: nat)
    requires bit < 2
    ensures (bit + 2 * rest) % 2 == bit && (bit + 2 * rest) / 2 == rest
  {
  }

  /** Bit `j` of `x`. */
  function Bit(x: nat, j: nat): nat {
    if j == 0 then x % 2 else Bit(x / 2, j - 1)
  }

  /** Each of the low `k` bits of the result is set exactly when the
      operands' bits differ. */
  lemma {:induction false} XorBitsBit(a: nat, b: nat, k: nat, j: nat)
    requires j < k
    ensures Bit(XorBits(a, b, k), j) == (Bit(a, j) + Bit(b, j)) % 2
  {
    var c := XorBits(a, b, k);
    assert c % 2 == (if a % 2 == b % 2 then 0 else 1) && c / 2 == XorBits(a / 2, b / 2, k - 1);
    if j > 0 {
      XorBitsBit(a / 2, b / 2, k - 1, j - 1);
    }
  }

  /** `elem[0] ^= (i & 0xFF) as u8`. */
  function Mixed(e: FieldElement, i: nat): (r: FieldElement)
    ensures r[0] == Xor(e[0], (i % 256) as byte)
    ensures r[1..] == e[1..]
  {
    e[0 := Xor(e[0], (i % 256) as byte)]
  }

  /** Applying the same mix twice gives the element back. */
  lemma MixedTwice(e: FieldElement, i: nat)
    ensures Mixed(Mixed(e, i), i) == e
  {
    assert Pow2(8) == 256;
    XorBitsTwice(e[0] as nat, i % 256, 8);
    assert Mixed(Mixed(e, i), i)[1..] == e[1..];
  }

  // ---------------------------------------------------------------------------
  // The rank's buffers

  class DistributedVector {
    var data: array<FieldElement>

    /** `DistributedVector::new`: the rank's chunk, element `i` made from
        global index `chunk_start + i`. */
    constructor (c: ComputeConfig)
      requires c.Valid()
      ensures data.Length == ChunkSize(c)
      ensures forall i :: 0 <= i < data.Length ==> data[i] == InitialElement(ChunkStart(c) + i)
      ensures fresh(data)
      ensures MemoryBytes() == ChunkSize(c) * FieldElementSize
    {
      var chunkSize := ChunkSize(c);
      var startIndex := ChunkStart(c);
      var a := new FieldElement[chunkSize](_ => seq(32, _ => 0));
      for i := 0 to chunkSize
        invariant forall j :: 0 <= j < i ==> a[j] == InitialElement(startIndex + j)
      {
        a[i] := InitialElement(startIndex + i);
      }
      data := a;
    }

    /** `memory_bytes`: 32 bytes per element. */
    function MemoryBytes(): nat
      reads this
    {
      data.Length * FieldElementSize
    }
  }

  class WorkingBuffers {
    var tempBuffer: array<FieldElement>
    var scratch: array<FieldElement>

    /** Two separate buffers of one size, as the two `Vec`s of `new` are. */
    predicate Valid()
      reads this
    {
      tempBuffer != scratch && tempBuffer.Length == scratch.Length
    }

    /** `WorkingBuffers::new`: two zeroed buffers of `size` elements. */
    constructor (size: nat)
      ensures tempBuffer.Length == size && scratch.Length == size
      ensures forall i :: 0 <= i < size ==> tempBuffer[i] == seq(32, _ => 0) && scratch[i] == seq(32, _ => 0)
      ensures fresh(tempBuffer) && fresh(scratch) && Valid()
      ensures MemoryBytes() == 2 * size * FieldElementSize
    {
      tempBuffer := new FieldElement[size](_ => seq(32, _ => 0));
      scratch := new FieldElement[size](_ => seq(32, _ => 0));
    }

    /** `memory_bytes`: both buffers, 32 bytes per element. */
    function MemoryBytes(): nat
      reads this
    {
      (tempBuffer.Length + scratch.Length) * FieldElementSize
    }
  }

  /** `compute_phase`: each element of the chunk gets its first byte mixed
      with its local index and is copied into the temporary buffer. The
      temporary buffer must be at least as long as the chunk (the indexing
      panics otherwise); the scratch space is left alone. The two mutable
      borrows keep the rank's data apart from both buffers. */
  method ComputePhase(dist: DistributedVector, buffers: WorkingBuffers)
    requires buffers.Valid() && buffers.tempBuffer.Length >= dist.data.Length
    requires buffers.tempBuffer != dist.data && buffers.scratch != dist.data
    modifies dist.data, buffers.tempBuffer
    ensures forall i :: 0 <= i < dist.data.Length ==> dist.data[i] == Mixed(old(dist.data[i]), i)
    ensures forall i :: 0 <= i < dist.data.Length ==> buffers.tempBuffer[i] == dist.data[i]
    ensures forall i :: dist.data.Length <= i < buffers.tempBuffer.Length ==> buffers.tempBuffer[i] == old(buffers.tempBuffer[i])
    ensures buffers.scratch[..] == old(buffers.scratch[..])
  {
    var data := dist.data;
    var temp := buffers.tempBuffer;
    for i := 0 to data.Length
      invariant forall j :: 0 <= j < i ==> data[j] == Mixed(old(data[j]), j) && temp[j] == data[j]
      invariant forall j :: i <= j < data.Length ==> data[j] == old(data[j])
      invariant forall j :: data.Length <= j < temp.Length ==> temp[j] == old(temp[j])
    {
      var elem := data[i];
      elem := elem[0 := Xor(elem[0], (i % 256) as byte)];
      data[i] := elem;
      temp[i] := elem;
    }
  }

  /** The bytes `memory_bytes` reports for the vectors of all ranks. */
  ghost function TotalMemory(vs: seq<DistributedVector>): nat
    reads vs
  {
    if vs == [] then 0 else TotalMemory(vs[..|vs| - 1]) + vs[|vs| - 1].MemoryBytes()
  }

  /** Once every rank has built its vector, the vectors together take the
      bytes of the whole problem: no element is allocated twice or missed. */
  lemma AllRanksMemory(c: ComputeConfig, vs: seq<DistributedVector>)
    requires c.worldSize >= 1 && |vs| == c.worldSize
    requires forall r :: 0 <= r < |vs| ==> vs[r].data.Length == ChunkSize(AtRank(c, r))
    ensures TotalMemory(vs) == c.problemSize * FieldElementSize
  {
    RanksMemory(c, vs, |vs|);
    assert vs[..|vs|] == vs;
    ChunksSum(c);
  }

  lemma {:induction false} RanksMemory(c: ComputeConfig, vs: seq<DistributedVector>, n: nat)
    requires c.worldSize >= 1 && n <= |vs| == c.worldSize
    requires forall r :: 0 <= r < |vs| ==> vs[r].data.Length == ChunkSize(AtRank(c, r))
    ensures TotalMemory(vs[..n]) == ChunksTotal(c, n) * FieldElementSize
  {
    if n > 0 {
      RanksMemory(c, vs, n - 1);
      assert vs[..n][..n - 1] == vs[..n - 1];
    }
  }

  /** Right after construction, element `i` of the chunk holds its global
      index in its first eight bytes; after the compute phase the first
      byte also carries the local index, and the rest is unchanged. */
  lemma ComputedElement(c: ComputeConfig, i: nat)
    requires c.Valid() && i < ChunkSize(c) && ChunkStart(c) + i < Pow256(8)
    ensures var e := Mixed(InitialElement(ChunkStart(c) + i), i);
      e[0] == Xor(((ChunkStart(c) + i) % 256) as byte, (i % 256) as byte)
      && LeValue(Mixed(e, i)[..8]) == ChunkStart(c) + i
  {
    var g := ChunkStart(c) + i;
    MixedTwice(InitialElement(g), i);
    InitialElementIndex(g);
  }
}
