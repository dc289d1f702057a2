/**
 The TLS_PRF branch of BCryptDeriveKey (bcrypt.c): the data expansion function P_hash of section 5
 of RFC 5246, for any keyed hash with outputs of a fixed length.
 */
module TlsPrf {
  import opened Bytes

  /** HMAC with a fixed secret: message to digest. */
  type Mac = bytes -> bytes

  ghost predicate FixedLength(mac: Mac, n: nat) {
    n > 0 && forall m: bytes :: |mac(m)| == n
  }

  /** A(i) of the RFC: A(0) is the seed, A(i) = HMAC(A(i-1)). */
  function A(mac: Mac, seed: bytes, i: nat): bytes {
    if i == 0 then seed else mac(A(mac, seed, i - 1))
  }

  /** The first `blocks` blocks of P_hash: block i is HMAC(A(i) + seed), for i from 1 on. */
  function PHash(mac: Mac, seed: bytes, blocks: nat): bytes {
    if blocks == 0 then [] else PHash(mac, seed, blocks - 1) + mac(A(mac, seed, blocks) + seed)
  }

  lemma {:induction false} PHashLength(mac: Mac, n: nat, seed: bytes, blocks: nat)
    requires FixedLength(mac, n)
    ensures |PHash(mac, seed, blocks)| == blocks * n
  {
    if blocks > 0 { PHashLength(mac, n, seed, blocks - 1); }
  }

  /** More blocks only append. */
  lemma {:induction false} PHashGrows(mac: Mac, seed: bytes, b: nat, c: nat)
    requires b <= c
    ensures PHash(mac, seed, b) <= PHash(mac, seed, c)
  {
    if b < c { PHashGrows(mac, seed, b, c - 1); }
  }

  /** The blocks that `size` bytes take. */
  function BlocksFor(size: nat, n: nat): nat
    requires n > 0
  {
    (size + n - 1) / n
  }

  /** `size` bytes of P_hash(secret, seed). */
  function Output(mac: Mac, n: nat, seed: bytes, size: nat): (out: bytes)
    requires FixedLength(mac, n)
    ensures |out| == size
  {
    PHashLength(mac, n, seed, BlocksFor(size, n));
    EnoughBlocks(size, n);
    PHash(mac, seed, BlocksFor(size, n))[..size]
  }

  lemma EnoughBlocks(size: nat, n: nat)
    requires n > 0
    ensures size <= BlocksFor(size, n) * n
  {
    DivMul(size + n - 1, n);
  }

  lemma DivMul(a: nat, n: nat)
    requires n > 0
    ensures a == a / n * n + a % n && a % n < n
  {
  }

  lemma WholeDiv(b: nat, n: nat)
    requires n > 0
    ensures BlocksFor(b * n, n) == b
  {
    DivMul(b * n + n - 1, n);
    var q, r := (b * n + n - 1) / n, (b * n + n - 1) % n;
    assert q * n + r == b * n + (n - 1);
    UniqueDiv(q, r, b, n - 1, n);
  }

  lemma MulGap(a: int, b: int, n: nat)
    requires a < b
    ensures b * n >= a * n + n
  {
    var d := b - a - 1;
    assert b * n == a * n + n + d * n by { assert b == a + 1 + d; }
    MulNonNegative(d, n);
  }

  lemma MulNonNegative(d: nat, n: nat)
    ensures d * n >= 0
  {
  }

  lemma UniqueDiv(q: int, r: int, q': int, r': int, n: nat)
    requires q * n + r == q' * n + r' && 0 <= r < n && 0 <= r' < n
    ensures q == q' && r == r'
  {
    if q < q' { MulGap(q, q', n); }
    if q > q' { MulGap(q', q, n); }
  }

  /** A shorter request gives a prefix of a longer one. */
  lemma ShorterIsPrefix(mac: Mac, n: nat, seed: bytes, short: nat, long: nat)
    requires FixedLength(mac, n) && short <= long
    ensures Output(mac, n, seed, short) == Output(mac, n, seed, long)[..short]
  {
    var b, c := BlocksFor(short, n), BlocksFor(long, n);
    DivMono(short + n - 1, long + n - 1, n);
    PHashGrows(mac, seed, b, c);
    PHashLength(mac, n, seed, b);
    PHashLength(mac, n, seed, c);
    EnoughBlocks(short, n);
    EnoughBlocks(long, n);
    var p, q := PHash(mac, seed, b), PHash(mac, seed, c);
    assert p == q[..|p|];
    assert p[..short] == q[..short] == q[..long][..short];
  }

  lemma DivMono(a: nat, b: nat, n: nat)
    requires n > 0 && a <= b
    ensures a / n <= b / n
  {
    DivMul(a, n);
    DivMul(b, n);
    if a / n > b / n { MulGap(b / n, a / n, n); }
  }

  /** Byte `k` of the output is byte k mod n of block k / n + 1. */
  lemma OutputByte(mac: Mac, n: nat, seed: bytes, size: nat, k: nat)
    requires FixedLength(mac, n) && k < size
    ensures Output(mac, n, seed, size)[k] == mac(A(mac, seed, k / n + 1) + seed)[k % n]
  {
    var b := k / n;
    DivMul(k, n);
    assert (b + 1) * n == b * n + n;
    var upTo := (b + 1) * n;
    PHashLength(mac, n, seed, b);
    PHashLength(mac, n, seed, b + 1);
    WholeDiv(b + 1, n);
    assert Output(mac, n, seed, upTo)[k] == mac(A(mac, seed, b + 1) + seed)[k % n];
    ShorterIsPrefix(mac, n, seed, if size <= upTo then size else upTo, if size <= upTo then upTo else size);
  }

  /** The branch itself. `key` is the output buffer, of which `keySize` bytes are written. */
  method DeriveKey(mac: Mac, n: nat, prfLabel: bytes, prfSeed: bytes, key: array<byte>, keySize: nat)
    requires FixedLength(mac, n) && keySize <= key.Length
    modifies key
    ensures key[..keySize] == Output(mac, n, prfLabel + prfSeed, keySize)
    ensures key[keySize..] == old(key[keySize..])
  {
    hide *;
    var prfA := mac(prfLabel + prfSeed);
    var remSize: int := keySize;
    var at: nat := 0;
    ghost var b: nat := 0;
    ghost var s := prfLabel + prfSeed;
    FirstA(mac, n, s, keySize);
    while remSize > 0
      invariant prfA == A(mac, s, b + 1) && Progress(keySize, n, b, remSize, at)
      invariant at <= keySize && key[..at] == Output(mac, n, s, at) && key[keySize..] == old(key[keySize..])
      decreases remSize
    {
      assert prfA + prfLabel + prfSeed == prfA + s;
      var prfK := mac(prfA + prfLabel + prfSeed);
      NextA(mac, s, b + 1);
      prfA := mac(prfA);
      var copySize := if remSize < n then remSize else n;
      NextBlock(mac, n, s, keySize, b, remSize, at, copySize, prfK);
      MemCpy(key, at, prfK, copySize);
      at := at + copySize;
      b := b + 1;
      remSize := remSize - n;
    }
    AllDone(keySize, n, b, remSize, at);
  }

  /** After `b` blocks. */
  ghost predicate Progress(keySize: nat, n: nat, b: nat, remSize: int, at: nat) {
    n > 0 && remSize == keySize - b * n && at == if remSize > 0 then b * n else keySize
  }

  lemma FirstA(mac: Mac, n: nat, s: bytes, keySize: nat)
    requires FixedLength(mac, n)
    ensures mac(s) == A(mac, s, 1) && Progress(keySize, n, 0, keySize, 0) && Output(mac, n, s, 0) == []
  {
    assert A(mac, s, 1) == mac(A(mac, s, 0));
  }

  lemma NextA(mac: Mac, s: bytes, i: nat)
    ensures mac(A(mac, s, i)) == A(mac, s, i + 1)
  {
  }

  lemma AllDone(keySize: nat, n: nat, b: nat, remSize: int, at: nat)
    requires Progress(keySize, n, b, remSize, at) && remSize <= 0
    ensures at == keySize
  {
  }

  /** What one round writes, and where it leaves the variables. */
  lemma NextBlock(mac: Mac, n: nat, s: bytes, keySize: nat, b: nat, remSize: int, at: nat, copy: int, block: bytes)
    requires FixedLength(mac, n) && Progress(keySize, n, b, remSize, at) && remSize > 0
    requires copy == (if remSize < n then remSize else n) && block == mac(A(mac, s, b + 1) + s)
    ensures 0 < copy <= n == |block| && at + copy <= keySize && remSize - n < remSize
    ensures Progress(keySize, n, b + 1, remSize - n, at + copy)
    ensures Output(mac, n, s, at + copy) == Output(mac, n, s, at) + block[..copy]
  {
    assert (b + 1) * n == b * n + n;
    BlockFits(mac, n, s, b, at + copy, copy, block);
  }

  method MemCpy(key: array<byte>, at: nat, from: bytes, n: nat)
    requires at + n <= key.Length && n <= |from|
    modifies key
    ensures key[..at + n] == old(key[..at]) + from[..n] && key[at + n..] == old(key[at + n..])
    ensures forall k :: at + n <= k <= key.Length ==> key[k..] == old(key[k..])
  {
    forall k | 0 <= k < n {
      key[at + k] := from[k];
    }
  }

  /** The next block, or the part of it that is needed. */
  lemma BlockFits(mac: Mac, n: nat, s: bytes, b: nat, upTo: nat, copy: nat, block: bytes)
    requires FixedLength(mac, n) && block == mac(A(mac, s, b + 1) + s) && 0 < copy <= n && upTo == b * n + copy
    ensures Output(mac, n, s, upTo) == Output(mac, n, s, b * n) + block[..copy]
  {
    PHashLength(mac, n, s, b);
    PHashLength(mac, n, s, b + 1);
    assert (b + 1) * n == b * n + n;
    WholeDiv(b, n);
    WholeDiv(b + 1, n);
    ShorterIsPrefix(mac, n, s, upTo, (b + 1) * n);
    var p := PHash(mac, s, b);
    assert (p + block)[..upTo] == p + block[..copy];
  }
}
