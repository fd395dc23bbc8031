/**
 * The value stored under the key "chats" in cmd/main.go: every registered chat id as the eight
 * little-endian bytes of `uint64(id)`, appended in registration order.
 */
module ChatList {
  import opened Basics

  const ChunkSize: nat := 8

  /** `uint64(id)`: the two's-complement bit pattern of an int64. */
  function ToUint64(id: Int64): (u: Uint64)
    ensures (u - id) % Two64 == 0
  {
    if id < 0 then id + Two64 else id
  }

  /** `int64(u)`: reads the bit pattern back as two's complement. */
  function ToInt64(u: Uint64): (id: Int64)
    ensures (id - u) % Two64 == 0
  {
    if u < Two63 then u else u - Two64
  }

  function Pow256(n: nat): (p: nat)
    ensures p >= 1
  {
    if n == 0 then 1 else 256 * Pow256(n - 1)
  }

  /** The number whose little-endian bytes are `b`. */
  function LeValue(b: seq<Byte>): nat {
    if b == [] then 0 else b[0] + 256 * LeValue(b[1..])
  }

  /** The `n` low-order bytes of `u`, least significant first. */
  function LeBytes(u: nat, n: nat): (b: seq<Byte>)
    ensures |b| == n
  {
    if n == 0 then [] else [u % 256] + LeBytes(u / 256, n - 1)
  }

  lemma {:induction false} LeValueBound(b: seq<Byte>)
    ensures LeValue(b) < Pow256(|b|)
  {
    if b != [] {
      LeValueBound(b[1..]);
    }
  }

  lemma {:induction false} LeValueOfLeBytes(u: nat, n: nat)
    requires u < Pow256(n)
    ensures LeValue(LeBytes(u, n)) == u
  {
    if n > 0 {
      LeValueOfLeBytes(u / 256, n - 1);
      assert LeBytes(u, n)[1..] == LeBytes(u / 256, n - 1);
    }
  }

  lemma {:induction false} LeBytesOfLeValue(b: seq<Byte>)
    ensures LeBytes(LeValue(b), |b|) == b
  {
    if b != [] {
      LeBytesOfLeValue(b[1..]);
      assert b == [b[0]] + b[1..];
    }
  }

  /** `binary.LittleEndian.PutUint64`. */
  function PutUint64(u: Uint64): (b: seq<Byte>)
    ensures |b| == ChunkSize
    ensures LeValue(b) == u
  {
    assert Pow256(8) == Two64;
    LeValueOfLeBytes(u, 8);
    LeBytes(u, 8)
  }

  /** `binary.LittleEndian.Uint64`. */
  function Uint64Of(b: seq<Byte>): (u: Uint64)
    requires |b| == ChunkSize
    ensures PutUint64(u) == b
  {
    LeValueBound(b);
    assert Pow256(8) == Two64;
    LeBytesOfLeValue(b);
    LeValue(b)
  }

  /** The eight bytes registration appends for a chat. */
  function EncodeChat(id: Int64): (b: seq<Byte>)
    ensures |b| == ChunkSize
    ensures (LeValue(b) - id) % Two64 == 0
  {
    PutUint64(ToUint64(id))
  }

  /** The chat id of one eight-byte chunk. */
  function DecodeChat(chunk: seq<Byte>): (id: Int64)
    requires |chunk| == ChunkSize
    ensures (id - LeValue(chunk)) % Two64 == 0
  {
    ToInt64(Uint64Of(chunk))
  }

  /** Every id, negative ones included, survives encoding and decoding. */
  lemma DecodeEncodeChat(id: Int64)
    ensures DecodeChat(EncodeChat(id)) == id
  {
    assert Pow256(8) == Two64;
    LeValueOfLeBytes(ToUint64(id), 8);
  }

  /** Every eight-byte chunk is the encoding of the id it decodes to. */
  lemma EncodeDecodeChat(chunk: seq<Byte>)
    requires |chunk| == ChunkSize
    ensures EncodeChat(DecodeChat(chunk)) == chunk
  {
    LeBytesOfLeValue(chunk);
  }

  /** The stored value after registering `ids` in order. */
  function EncodeAll(ids: seq<Int64>): (v: seq<Byte>)
    ensures |v| == ChunkSize * |ids|
  {
    if ids == [] then [] else EncodeAll(ids[..|ids| - 1]) + EncodeChat(ids[|ids| - 1])
  }

  /** The ids of a stored value, read in eight-byte chunks. */
  function DecodeAll(v: seq<Byte>): (ids: seq<Int64>)
    requires |v| % ChunkSize == 0
    ensures |ids| == |v| / ChunkSize
  {
    if v == [] then [] else DecodeAll(v[..|v| - 8]) + [DecodeChat(v[|v| - 8..])]
  }

  /** Id `k` of a stored value is the decoding of its `k`-th eight-byte chunk. */
  lemma {:induction false} DecodeAllChunk(v: seq<Byte>, k: nat)
    requires |v| % ChunkSize == 0 && k < |v| / ChunkSize
    ensures DecodeAll(v)[k] == DecodeChat(v[ChunkSize * k..ChunkSize * k + ChunkSize])
  {
    var front := v[..|v| - 8];
    assert DecodeAll(v) == DecodeAll(front) + [DecodeChat(v[|v| - 8..])];
    assert |front| / 8 == |v| / 8 - 1;
    if k < |v| / 8 - 1 {
      DecodeAllChunk(front, k);
      assert front[8 * k..8 * k + 8] == v[8 * k..8 * k + 8];
    } else {
      assert ChunkSize * k == |v| - 8;
      assert |DecodeAll(front)| == k;
      assert v[ChunkSize * k..ChunkSize * k + ChunkSize] == v[|v| - 8..];
    }
  }

  /** Decoding the stored value gives back the registered ids, in registration order. */
  lemma {:induction false} DecodeAllEncodeAll(ids: seq<Int64>)
    ensures DecodeAll(EncodeAll(ids)) == ids
  {
    if ids != [] {
      var init, last := ids[..|ids| - 1], ids[|ids| - 1];
      var v := EncodeAll(ids);
      assert v[..|v| - 8] == EncodeAll(init);
      assert v[|v| - 8..] == EncodeChat(last);
      assert DecodeAll(v) == DecodeAll(v[..|v| - 8]) + [DecodeChat(v[|v| - 8..])];
      DecodeAllEncodeAll(init);
      DecodeEncodeChat(last);
      assert ids == init + [last];
    }
  }

  /** Every value of a length divisible by eight is the encoding of the ids it decodes to. */
  lemma {:induction false} EncodeAllDecodeAll(v: seq<Byte>)
    requires |v| % ChunkSize == 0
    ensures EncodeAll(DecodeAll(v)) == v
  {
    if v != [] {
      var ids := DecodeAll(v);
      assert ids[..|ids| - 1] == DecodeAll(v[..|v| - 8]);
      assert EncodeAll(ids) == EncodeAll(ids[..|ids| - 1]) + EncodeChat(ids[|ids| - 1]);
      EncodeAllDecodeAll(v[..|v| - 8]);
      EncodeDecodeChat(v[|v| - 8..]);
      assert v == v[..|v| - 8] + v[|v| - 8..];
    }
  }

  /** The chunk loop of `cronHandler`: `val[i : i+chunkSize]` for `i` stepping by eight. */
  method DecodeChats(val: seq<Byte>) returns (chats: seq<Int64>)
    requires |val| % ChunkSize == 0
    ensures |chats| == |val| / ChunkSize
    ensures chats == DecodeAll(val)
    ensures EncodeAll(chats) == val
  {
    chats := [];
    var i := 0;
    while i < |val|
      invariant 0 <= i <= |val| && i % ChunkSize == 0
      invariant chats == DecodeAll(val[..i])
    {
      var chunk := val[i..i + ChunkSize];
      assert val[..i + ChunkSize][..i] == val[..i];
      assert val[..i + ChunkSize][i..] == chunk;
      chats := chats + [DecodeChat(chunk)];
      i := i + ChunkSize;
    }
    assert val[..i] == val;
    EncodeAllDecodeAll(val);
  }
}
