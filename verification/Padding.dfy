/** PKCS#7 padding (section 6.3 of RFC 5652) and cipher block chaining (section 6.2 of
    NIST SP 800-38A) over an arbitrary block cipher. */
module Padding {
  import opened Wrappers
  import opened Bytes

  const BLOCK: nat := 16

  // ---------------------------------------------------------------------------
  // Padding

  /** The padding an RFC 5652 writer adds: `n` bytes of value `n` up to the next block boundary. */
  function Pad(m: Bytes, blockSize: nat): Bytes
    requires 1 <= blockSize <= 255
  {
    var n := blockSize - |m| % blockSize;
    m + Filler(n)
  }

  /** `n` bytes of value `n`. */
  function Filler(n: nat): Bytes
    requires n <= 255
  {
    seq(n, _ => n as byte)
  }

  function Unpad(b: Bytes, blockSize: nat): Option<Bytes>
    requires blockSize >= 1
  {
    var n := |b|;
    if n == 0 || n % blockSize != 0 then None
    else
      var pad := b[n - 1] as nat;
      if pad == 0 || pad > blockSize then None
      else
        PadFits(n, blockSize);
        if forall i :: n - pad <= i < n ==> b[i] as nat == pad then Some(b[..n - pad]) else None
  }

  lemma PadFits(n: nat, blockSize: nat)
    requires n > 0 && blockSize > 0 && n % blockSize == 0
    ensures n >= blockSize
  {
  }

  /** Every slice and index is in range. */
  method Pkcs7Unpad(b: Bytes, blockSize: nat) returns (r: Option<Bytes>)
    requires blockSize >= 1
    ensures r == Unpad(b, blockSize)
  {
    var n := |b|;
    if n == 0 || n % blockSize != 0 {
      return None;
    }
    var pad := b[n - 1] as nat;
    if pad == 0 || pad > blockSize {
      return None;
    }
    PadFits(n, blockSize);
    for i := n - pad to n
      invariant forall k :: n - pad <= k < i ==> b[k] as nat == pad
    {
      if b[i] as nat != pad {
        return None;
      }
    }
    return Some(b[..n - pad]);
  }

  lemma ModOfMultiple(n: nat, pad: nat, blockSize: nat)
    requires 1 <= pad <= blockSize && pad <= n && n % blockSize == 0
    ensures blockSize - (n - pad) % blockSize == pad
  {
    var q := n / blockSize;
    assert n == q * blockSize;
    if pad == blockSize {
      assert n - pad == (q - 1) * blockSize;
      ModUnique(q - 1, 0, blockSize);
    } else {
      assert n - pad == (q - 1) * blockSize + (blockSize - pad);
      ModUnique(q - 1, blockSize - pad, blockSize);
    }
  }

  lemma ModUnique(q: int, r: nat, d: nat)
    requires r < d && q >= 0
    ensures (q * d + r) % d == r
  {
    var n := q * d + r;
    assert n == n / d * d + n % d;
    var k := n / d - q;
    assert k * d == r - n % d;
    assert 0 - d < k * d < d;
    assert k >= 1 ==> k * d >= d;
    assert k <= -1 ==> k * d <= 0 - d;
  }

  /** The padding's length, and the length it leads to. */
  lemma PadLength(len: nat, blockSize: nat) returns (n: nat)
    requires blockSize >= 1
    ensures n == blockSize - len % blockSize && 1 <= n <= blockSize && (len + n) % blockSize == 0
  {
    var q := len / blockSize;
    n := blockSize - len % blockSize;
    assert len == q * blockSize + len % blockSize;
    assert len + n == (q + 1) * blockSize;
    ModUnique(q + 1, 0, blockSize);
  }

  lemma PadThenUnpad(m: Bytes, blockSize: nat)
    requires 1 <= blockSize <= 255
    ensures Unpad(Pad(m, blockSize), blockSize) == Some(m)
  {
    var n := PadLength(|m|, blockSize);
    var b := Pad(m, blockSize);
    assert b == m + Filler(n);
    assert b[|b| - 1] == n as byte;
    assert b[..|b| - n] == m;
  }

  lemma UnpadThenPad(b: Bytes, blockSize: nat)
    requires 1 <= blockSize <= 255 && Unpad(b, blockSize).Some?
    ensures Pad(Unpad(b, blockSize).value, blockSize) == b
  {
    var pad := b[|b| - 1] as nat;
    PadFits(|b|, blockSize);
    ModOfMultiple(|b|, pad, blockSize);
    var m := b[..|b| - pad];
    assert Pad(m, blockSize) == m + Filler(pad);
    assert b[|b| - pad..] == Filler(pad);
  }

  /** Unpadding is the exact partial inverse of padding: it succeeds with `m` exactly on the
      padding of `m`, for every block size from 1 to 255. */
  lemma UnpadInvertsPad(b: Bytes, m: Bytes, blockSize: nat)
    requires 1 <= blockSize <= 255
    ensures Unpad(b, blockSize) == Some(m) <==> b == Pad(m, blockSize)
  {
    PadThenUnpad(m, blockSize);
    if Unpad(b, blockSize) == Some(m) {
      UnpadThenPad(b, blockSize);
    }
  }

  /** For every block size, also those too large for padding bytes: unpadding gives `m` exactly when
      the buffer is whole blocks and continues `m` by at most a block of filler. */
  lemma UnpadMeans(b: Bytes, m: Bytes, blockSize: nat)
    requires blockSize >= 1
    ensures Unpad(b, blockSize) == Some(m) <==>
            |b| % blockSize == 0 && exists n :: 1 <= n <= 255 && n <= blockSize && b == m + Filler(n)
  {
    if Unpad(b, blockSize) == Some(m) {
      var n := b[|b| - 1] as nat;
      PadFits(|b|, blockSize);
      assert b[|b| - n..] == Filler(n);
      assert b == m + Filler(n);
    }
    if |b| % blockSize == 0 && exists n :: 1 <= n <= 255 && n <= blockSize && b == m + Filler(n) {
      var n :| 1 <= n <= 255 && n <= blockSize && b == m + Filler(n);
      assert b[|b| - 1] == Filler(n)[n - 1];
      assert b[..|b| - n] == m;
    }
  }

  // ---------------------------------------------------------------------------
  // Chaining

  function Pow2(n: nat): nat {
    if n == 0 then 1 else 2 * Pow2(n - 1)
  }

  /** Exclusive or of the low `n` bits. */
  function XorBits(x: nat, y: nat, n: nat): (r: nat)
    ensures r < Pow2(n)
  {
    if n == 0 then 0 else (x + y) % 2 + 2 * XorBits(x / 2, y / 2, n - 1)
  }

  lemma {:induction false} XorBitsInvolution(x: nat, y: nat, n: nat)
    requires x < Pow2(n)
    ensures XorBits(XorBits(x, y, n), y, n) == x
  {
    if n > 0 {
      XorBitsInvolution(x / 2, y / 2, n - 1);
      LowBit(x, y, XorBits(x / 2, y / 2, n - 1));
    }
  }

  lemma LowBit(x: nat, y: nat, r: nat)
    ensures ((x + y) % 2 + 2 * r) / 2 == r
    ensures ((x + y) % 2 + 2 * r + y) % 2 == x % 2
  {
  }

  lemma Pow2Of8()
    ensures Pow2(8) == 256
  {
    assert Pow2(4) == 16;
    assert Pow2(6) == 64;
  }

  function Xor(x: byte, y: byte): byte {
    Pow2Of8();
    XorBits(x as nat, y as nat, 8) as byte
  }

  lemma XorInvolution(x: byte, y: byte)
    ensures Xor(Xor(x, y), y) == x
  {
    Pow2Of8();
    XorBitsInvolution(x as nat, y as nat, 8);
  }

  function XorBlock(x: Bytes, y: Bytes): Bytes {
    seq(|x|, i requires 0 <= i < |x| => if i < |y| then Xor(x[i], y[i]) else x[i])
  }

  lemma XorBlockInvolution(x: Bytes, y: Bytes)
    requires |x| == |y|
    ensures XorBlock(XorBlock(x, y), y) == x
  {
    forall i | 0 <= i < |x| ensures XorBlock(XorBlock(x, y), y)[i] == x[i] {
      XorInvolution(x[i], y[i]);
    }
  }

  /** The bit of weight 2 to the `k`. */
  function Bit(x: nat, k: nat): nat {
    if k == 0 then x % 2 else Bit(x / 2, k - 1)
  }

  lemma {:induction false} XorBitsMeans(x: nat, y: nat, n: nat, k: nat)
    requires k < n
    ensures Bit(XorBits(x, y, n), k) == if Bit(x, k) == Bit(y, k) then 0 else 1
  {
    var r := XorBits(x / 2, y / 2, n - 1);
    SumParity(x, y);
    BitOfSum((x + y) % 2, r, k);
    if k > 0 {
      XorBitsMeans(x / 2, y / 2, n - 1, k - 1);
    }
  }

  lemma SumParity(x: nat, y: nat)
    ensures (x + y) % 2 == if x % 2 == y % 2 then 0 else 1
  {
  }

  lemma BitOfSum(b: nat, r: nat, k: nat)
    requires b < 2
    ensures Bit(b + 2 * r, k) == if k == 0 then b else Bit(r, k - 1)
  {
    assert (b + 2 * r) / 2 == r && (b + 2 * r) % 2 == b;
  }

  /** Each bit of each byte is set exactly when it is set in one of the two blocks. */
  lemma XorBlockMeans(x: Bytes, y: Bytes, i: nat, k: nat)
    requires |x| == |y| && i < |x| && k < 8
    ensures |XorBlock(x, y)| == |x|
    ensures Bit(XorBlock(x, y)[i] as nat, k) == if Bit(x[i] as nat, k) == Bit(y[i] as nat, k) then 0 else 1
  {
    XorBitsMeans(x[i] as nat, y[i] as nat, 8, k);
  }

  type BlockFn = Bytes -> Bytes

  /** A block function maps blocks to blocks. */
  ghost predicate OnBlocks(f: BlockFn) {
    forall b :: |b| == BLOCK ==> |f(b)| == BLOCK
  }

  /** `g` undoes `f` on blocks. */
  ghost predicate Undoes(g: BlockFn, f: BlockFn) {
    forall b :: |b| == BLOCK ==> g(f(b)) == b
  }

  /** The writer's chaining of whole blocks. */
  function CbcEncrypt(f: BlockFn, iv: Bytes, p: Bytes): Bytes
    decreases |p|
  {
    if |p| < BLOCK then []
    else
      var c := f(XorBlock(p[..BLOCK], iv));
      c + CbcEncrypt(f, c, p[BLOCK..])
  }

  /** The decrypter's chaining of whole blocks. */
  function CbcDecrypt(g: BlockFn, iv: Bytes, c: Bytes): Bytes
    decreases |c|
  {
    if |c| < BLOCK then []
    else XorBlock(g(c[..BLOCK]), iv) + CbcDecrypt(g, c[..BLOCK], c[BLOCK..])
  }

  /** A sequence of whole blocks. */
  ghost predicate Whole(b: Bytes) {
    b == [] || (|b| >= BLOCK && Whole(b[BLOCK..]))
  }

  lemma {:induction false} WholeIsMultiple(b: Bytes)
    ensures Whole(b) <==> |b| % BLOCK == 0
  {
    if |b| >= BLOCK {
      WholeIsMultiple(b[BLOCK..]);
    }
  }

  lemma {:induction false} CbcLength(f: BlockFn, iv: Bytes, p: Bytes)
    requires |iv| == BLOCK && Whole(p) && OnBlocks(f)
    ensures |CbcEncrypt(f, iv, p)| == |p|
    decreases |p|
  {
    if p != [] {
      CbcLength(f, f(XorBlock(p[..BLOCK], iv)), p[BLOCK..]);
    }
  }

  /** The `j`-th block. */
  function BlockAt(b: Bytes, j: nat): Bytes
    requires 16 * j + 16 <= |b|
  {
    b[16 * j..16 * j + 16]
  }

  /** Every block but the first is chained to the ciphertext before it, the first to the initialization
      vector (section 6.2 of NIST SP 800-38A). */
  lemma {:induction false} CbcBlocks(f: BlockFn, iv: Bytes, p: Bytes, j: nat)
    requires |iv| == BLOCK && Whole(p) && OnBlocks(f) && 16 * j + 16 <= |p|
    ensures |CbcEncrypt(f, iv, p)| == |p|
    ensures var c := CbcEncrypt(f, iv, p);
            BlockAt(c, j) == f(XorBlock(BlockAt(p, j), if j == 0 then iv else BlockAt(c, j - 1)))
    decreases j
  {
    CbcLength(f, iv, p);
    var first, rest := p[..BLOCK], p[BLOCK..];
    var c1 := f(XorBlock(first, iv));
    var c := CbcEncrypt(f, iv, p);
    var tail := CbcEncrypt(f, c1, rest);
    assert c == c1 + tail && p == first + rest;
    if j == 0 {
      assert BlockAt(c, 0) == c1 && BlockAt(p, 0) == first;
    } else {
      CbcBlocks(f, c1, rest, j - 1);
      BlockBehind(c1, tail, j);
      BlockBehind(first, rest, j);
      if j == 1 {
        assert BlockAt(c, 0) == c1;
      } else {
        BlockBehind(c1, tail, j - 1);
      }
    }
  }

  lemma BlockBehind(first: Bytes, rest: Bytes, j: nat)
    requires |first| == BLOCK && j > 0 && 16 * j <= |rest|
    ensures BlockAt(first + rest, j) == BlockAt(rest, j - 1)
  {
  }

  lemma EncryptStep(f: BlockFn, iv: Bytes, block: Bytes, rest: Bytes)
    requires |block| == BLOCK
    ensures CbcEncrypt(f, iv, block + rest)
            == f(XorBlock(block, iv)) + CbcEncrypt(f, f(XorBlock(block, iv)), rest)
  {
    assert (block + rest)[..BLOCK] == block && (block + rest)[BLOCK..] == rest;
  }

  lemma DecryptStep(g: BlockFn, iv: Bytes, block: Bytes, rest: Bytes)
    requires |block| == BLOCK
    ensures CbcDecrypt(g, iv, block + rest) == XorBlock(g(block), iv) + CbcDecrypt(g, block, rest)
  {
    assert (block + rest)[..BLOCK] == block && (block + rest)[BLOCK..] == rest;
  }

  /** Chaining is undone by any inverse of the block function. */
  lemma {:induction false} CbcInverts(f: BlockFn, g: BlockFn, iv: Bytes, p: Bytes)
    requires |iv| == BLOCK && Whole(p) && OnBlocks(f) && OnBlocks(g) && Undoes(g, f)
    ensures CbcDecrypt(g, iv, CbcEncrypt(f, iv, p)) == p
    decreases |p|
  {
    if p != [] {
      var block, rest := p[..BLOCK], p[BLOCK..];
      assert p == block + rest;
      var c := f(XorBlock(block, iv));
      EncryptStep(f, iv, block, rest);
      DecryptStep(g, iv, c, CbcEncrypt(f, c, rest));
      CbcInverts(f, g, c, rest);
      XorBlockInvolution(block, iv);
    }
  }

  /** The decrypter fills the buffer block by block. */
  method CryptBlocks(g: BlockFn, iv: Bytes, c: Bytes, out: array<byte>)
    requires |iv| == BLOCK && Whole(c) && OnBlocks(g) && out.Length == |c|
    modifies out
    ensures out[..] == CbcDecrypt(g, iv, c)
  {
    var prev := iv;
    var at := 0;
    ghost var total, rest := CbcDecrypt(g, iv, c), c;
    while at < |c|
      invariant 0 <= at <= |c| && rest == c[at..] && Whole(rest) && |prev| == BLOCK
      invariant out[..at] + CbcDecrypt(g, prev, rest) == total
    {
      var block := c[at..at + BLOCK];
      assert rest == block + rest[BLOCK..];
      rest := rest[BLOCK..];
      DecryptStep(g, prev, block, rest);
      var plain := XorBlock(g(block), prev);
      Regroup(out[..at], plain, CbcDecrypt(g, block, rest));
      StoreBlock(out, at, plain);
      prev := block;
      at := at + BLOCK;
    }
    assert out[..at] == out[..];
  }

  lemma Regroup(a: Bytes, b: Bytes, c: Bytes)
    ensures a + (b + c) == (a + b) + c
  {
  }

  method StoreBlock(out: array<byte>, at: nat, plain: Bytes)
    requires at + |plain| <= out.Length
    modifies out
    ensures out[..at + |plain|] == old(out[..at]) + plain
  {
    for i := 0 to |plain|
      invariant out[..at + i] == old(out[..at]) + plain[..i]
    {
      out[at + i] := plain[i];
    }
  }
}
