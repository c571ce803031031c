/** HKDF-Expand of the WSL core protocol, against section 2.3 of RFC 5869. HMAC-SHA-256 is a
    parameter; of it only the length of its result matters. */
module Hkdf {
  import opened Common
  import opened ByteOrder

  const HASH: nat := 32

  type Hmac = (Bytes, Bytes) -> Bytes

  ghost predicate IsHmac(hmac: Hmac) {
    forall key, message :: |hmac(key, message)| == HASH
  }

  /** T(i) of the RFC: T(0) is empty, T(i) = HMAC(PRK, T(i-1) | info | i). */
  function T(hmac: Hmac, prk: Bytes, info: Bytes, i: nat): Bytes
    requires i <= 0xFF
  {
    if i == 0 then [] else hmac(prk, T(hmac, prk, info, i - 1) + info + [i])
  }

  /** T(1) | T(2) | ... | T(n). */
  function Blocks(hmac: Hmac, prk: Bytes, info: Bytes, n: nat): Bytes
    requires n <= 0xFF
  {
    if n == 0 then [] else Blocks(hmac, prk, info, n - 1) + T(hmac, prk, info, n)
  }

  lemma {:induction false} BlocksLength(hmac: Hmac, prk: Bytes, info: Bytes, n: nat)
    requires IsHmac(hmac) && n <= 0xFF
    ensures |Blocks(hmac, prk, info, n)| == HASH * n
  {
    if n > 0 {
      BlocksLength(hmac, prk, info, n - 1);
    }
  }

  /** The number of blocks that hold `length` bytes. */
  function Count(length: nat): nat {
    (length + HASH - 1) / HASH
  }

  /** Copies the first `take` bytes of `block` into the buffer at `offset`. */
  method CopyInto(buffer: array<Byte>, offset: nat, block: Bytes, take: nat)
    requires take <= |block| && offset + take <= buffer.Length
    modifies buffer
    ensures buffer[..offset + take] == old(buffer[..offset]) + block[..take]
  {
    forall i | 0 <= i < take {
      buffer[offset + i] := block[i];
    }
    assert buffer[..offset] == old(buffer[..offset]);
  }

  lemma FirstBlock(hmac: Hmac, prk: Bytes, info: Bytes)
    ensures T(hmac, prk, info, 0) == [] && Blocks(hmac, prk, info, 0) == []
  {
  }

  lemma PrefixGrows(done: Bytes, block: Bytes, offset: nat, take: nat)
    requires offset == |done| && take <= |block|
    ensures done[..offset] + block[..take] == (done + block)[..offset + take]
  {
  }

  lemma NextBlock(hmac: Hmac, prk: Bytes, info: Bytes, n: nat)
    requires IsHmac(hmac) && n < 0xFF
    ensures |T(hmac, prk, info, n + 1)| == HASH
    ensures T(hmac, prk, info, n + 1) == hmac(prk, T(hmac, prk, info, n) + info + [n + 1])
    ensures Blocks(hmac, prk, info, n + 1) == Blocks(hmac, prk, info, n) + T(hmac, prk, info, n + 1)
    ensures |Blocks(hmac, prk, info, n + 1)| == |Blocks(hmac, prk, info, n)| + HASH
  {
  }

  /** The loop of HkdfExpand, with its one-byte counter that wraps; `counters` are the values it
      is used with. The result is None where the source throws ArgumentOutOfRangeException. */
  method HkdfExpand(hmac: Hmac, prk: Bytes, info: Bytes, length: int)
    returns (output: Option<Bytes>, counters: seq<Byte>)
    requires IsHmac(hmac)
    ensures output.Some? <==> 0 < length <= 8160
    ensures output.Some? ==>
      Count(length) <= 0xFF && length <= |Blocks(hmac, prk, info, Count(length))|
      && output.value == Blocks(hmac, prk, info, Count(length))[..length]
    ensures output.Some? ==>
      |counters| == Count(length) <= 0xFF && forall i :: 0 <= i < Count(length) ==> counters[i] == i + 1
  {
    hide T, Blocks, IsHmac;
    BlocksLength(hmac, prk, info, 0);
    counters := [];
    if length <= 0 || length > 0xFF * HASH { return None, []; }
    var buffer := new Byte[length];
    var previous: Bytes := [];
    var offset, counter: Byte := 0, 1;
    ghost var n := 0;
    FirstBlock(hmac, prk, info);
    while offset < length
      invariant 0 <= n <= Count(length) <= 0xFF
      invariant offset == if HASH * n <= length then HASH * n else length
      invariant n < Count(length) <==> offset < length
      invariant previous == T(hmac, prk, info, n)
      invariant counter == (n + 1) % 0x100
      invariant |counters| == n && forall i :: 0 <= i < n ==> counters[i] == i + 1
      invariant |Blocks(hmac, prk, info, n)| == HASH * n
      invariant buffer[..offset] == Blocks(hmac, prk, info, n)[..offset]
      decreases length - offset
    {
      NextBlock(hmac, prk, info, n);
      var input := previous + info + [counter];
      counters := counters + [counter];
      counter := (counter + 1) % 0x100;
      var block := hmac(prk, input);
      previous := block;
      var take := if |block| < length - offset then |block| else length - offset;
      CopyInto(buffer, offset, block, take);
      PrefixGrows(Blocks(hmac, prk, info, n), block, offset, take);
      n := n + 1;
      offset := offset + take;
    }
    output := Some(buffer[..]);
    assert buffer[..] == buffer[..offset];
  }
}
