/** PKCS#7 padding (section 6.3 of RFC 5652) and the block-by-block mode around an abstract block cipher. */
module AesEcb {
  import opened GoTypes

  const BLOCK_SIZE: nat := 16

  // Padding.

  function PadLength(n: nat, blockSize: nat): nat
    requires blockSize > 0
  {
    blockSize - n % blockSize
  }

  function Padded(x: Bytes, blockSize: nat): Bytes
    requires 0 < blockSize < 256
  {
    var n := PadLength(|x|, blockSize);
    x + seq(n, _ => n)
  }

  function Unpadded(x: Bytes, blockSize: nat): Option<Bytes>
    requires 0 < blockSize < 256
  {
    if x == [] || |x| % blockSize != 0 then None
    else
      var n := x[|x| - 1];
      if n == 0 || n > blockSize || n > |x| then None
      else if forall i :: |x| - n <= i < |x| ==> x[i] == n then Some(x[..|x| - n])
      else None
  }

  method Pkcs7Pad(input: Bytes, blockSize: nat) returns (out: array<Byte>)
    requires 0 < blockSize < 256
    ensures fresh(out) && out[..] == Padded(input, blockSize)
  {
    var padding := blockSize - |input| % blockSize;
    out := new Byte[|input| + padding];
    forall i | 0 <= i < |input| {
      out[i] := input[i];
    }
    for i := |input| to out.Length
      invariant out[..|input|] == input
      invariant forall k :: |input| <= k < i ==> out[k] == padding
    {
      out[i] := padding;
    }
    assert out[..] == out[..|input|] + out[|input|..];
  }

  method Pkcs7Unpad(input: Bytes, blockSize: nat) returns (r: Option<Bytes>)
    requires 0 < blockSize < 256
    ensures r == Unpadded(input, blockSize)
  {
    if |input| == 0 || |input| % blockSize != 0 {
      return None;
    }
    var padding := input[|input| - 1];
    if padding == 0 || padding > blockSize || padding > |input| {
      return None;
    }
    for i := |input| - padding to |input|
      invariant forall k :: |input| - padding <= k < i ==> input[k] == padding
    {
      if input[i] != padding {
        return None;
      }
    }
    return Some(input[..|input| - padding]);
  }

  lemma {:induction false} MultipleBounds(m: nat, d: int)
    requires m > 0
    ensures d >= 1 ==> m * d >= m
    ensures d >= 2 ==> m * d >= 2 * m
    ensures d <= 0 ==> m * d <= 0
    ensures d <= -1 ==> m * d + m <= 0
  {
    if d >= 2 {
      assert m * (d - 2) >= 0;
    } else if d <= -1 {
      assert m * (-d - 1) >= 0;
    }
  }

  lemma {:induction false} QuotientUnique(n: nat, q: nat, r: nat, m: nat)
    requires r < m && n == m * q + r
    ensures n % m == r
  {
    var d := n / m - q;
    assert n == m * (n / m) + n % m;
    assert m * d == m * (n / m) - m * q;
    MultipleBounds(m, d);
  }

  lemma {:induction false} PaddedLength(n: nat, blockSize: nat)
    requires blockSize > 0
    ensures 1 <= PadLength(n, blockSize) <= blockSize
    ensures (n + PadLength(n, blockSize)) % blockSize == 0
  {
    var q := n / blockSize;
    assert n == blockSize * q + n % blockSize;
    assert blockSize * (q + 1) == blockSize * q + blockSize;
    QuotientUnique(n + PadLength(n, blockSize), q + 1, 0, blockSize);
  }

  /** Padding fills up to the next multiple, with at least one byte, and every byte of it is their number. */
  lemma {:induction false} PadMeans(x: Bytes, blockSize: nat)
    requires 0 < blockSize < 256
    ensures
      var y := Padded(x, blockSize);
      && x <= y && |y| % blockSize == 0 && |x| < |y| <= |x| + blockSize
      && forall i :: |x| <= i < |y| ==> y[i] == |y| - |x|
  {
    PaddedLength(|x|, blockSize);
  }

  /** A multiple of the block size can carry behind n bytes only the padding that n bytes ask for. */
  lemma {:induction false} PadLengthUnique(n: nat, k: nat, blockSize: nat)
    requires 1 <= k <= blockSize && (n + k) % blockSize == 0
    ensures PadLength(n, blockSize) == k
  {
    var q, t := n / blockSize, (n + k) / blockSize;
    assert n == blockSize * q + n % blockSize;
    assert n + k == blockSize * t;
    assert blockSize * (t - q) == blockSize * t - blockSize * q == n % blockSize + k;
    MultipleBounds(blockSize, t - q);
  }

  /** Unpadding accepts exactly what padding produces. */
  lemma {:induction false} UnpadExactly(x: Bytes, y: Bytes, blockSize: nat)
    requires 0 < blockSize < 256
    ensures Unpadded(x, blockSize) == Some(y) <==> x == Padded(y, blockSize)
  {
    if x == Padded(y, blockSize) {
      var n := PadLength(|y|, blockSize);
      PaddedLength(|y|, blockSize);
      assert x[|x| - 1] == n && x[..|x| - n] == y;
    }
    if Unpadded(x, blockSize) == Some(y) {
      var n := x[|x| - 1];
      PadLengthUnique(|y|, n, blockSize);
      assert x == x[..|x| - n] + x[|x| - n..];
      assert x[|x| - n..] == seq(n, _ => n);
    }
  }

  // The mode.

  /** A block cipher under one key. */
  datatype Cipher = Cipher(encrypt: Bytes -> Bytes, decrypt: Bytes -> Bytes)

  /** On blocks, encryption and decryption are inverse to each other. */
  ghost predicate Permutation(c: Cipher) {
    forall b: Bytes :: |b| == BLOCK_SIZE ==>
      && |c.encrypt(b)| == BLOCK_SIZE && c.decrypt(c.encrypt(b)) == b
      && |c.decrypt(b)| == BLOCK_SIZE && c.encrypt(c.decrypt(b)) == b
  }

  function MapBlocks(f: Bytes -> Bytes, x: Bytes): Bytes {
    if |x| < BLOCK_SIZE then [] else f(x[..BLOCK_SIZE]) + MapBlocks(f, x[BLOCK_SIZE..])
  }

  function Encrypted(c: Cipher, plaintext: Bytes): Bytes {
    MapBlocks(c.encrypt, Padded(plaintext, BLOCK_SIZE))
  }

  function Decrypted(c: Cipher, ciphertext: Bytes): Option<Bytes> {
    if |ciphertext| % BLOCK_SIZE != 0 then None
    else Unpadded(MapBlocks(c.decrypt, ciphertext), BLOCK_SIZE)
  }

  /** aesECBSize. */
  function EcbSize(plaintextSize: nat): nat {
    plaintextSize + (16 - plaintextSize % 16)
  }

  /** One block goes through f into the same place of dst. */
  method BlockInto(f: Bytes -> Bytes, dst: array<Byte>, start: nat, src: Bytes)
    requires |src| == BLOCK_SIZE && start + BLOCK_SIZE <= dst.Length && |f(src)| == BLOCK_SIZE
    modifies dst
    ensures dst[..start] == old(dst[..start])
    ensures dst[start..start + BLOCK_SIZE] == f(src)
  {
    var b := f(src);
    forall i | start <= i < start + BLOCK_SIZE {
      dst[i] := b[i - start];
    }
  }

  /** The loop that encryption and decryption share. */
  method BlockByBlock(f: Bytes -> Bytes, src: Bytes) returns (dst: array<Byte>)
    requires |src| % BLOCK_SIZE == 0
    requires forall b: Bytes :: |b| == BLOCK_SIZE ==> |f(b)| == BLOCK_SIZE
    ensures fresh(dst) && dst[..] == MapBlocks(f, src)
  {
    hide MapBlocks;
    dst := new Byte[|src|];
    var start := 0;
    assert dst[..0] == [] && src[0..] == src;
    while start < |src|
      invariant start <= |src| == dst.Length && (|src| - start) % BLOCK_SIZE == 0
      invariant dst[..start] + MapBlocks(f, src[start..]) == MapBlocks(f, src)
    {
      ghost var done := dst[..start];
      MapBlocksStep(f, src[start..]);
      assert src[start..][..BLOCK_SIZE] == src[start..start + BLOCK_SIZE];
      assert src[start..][BLOCK_SIZE..] == src[start + BLOCK_SIZE..];
      BlockInto(f, dst, start, src[start..start + BLOCK_SIZE]);
      assert dst[..start + BLOCK_SIZE] == done + dst[start..start + BLOCK_SIZE];
      start := start + BLOCK_SIZE;
    }
    MapBlocksStep(f, src[start..]);
    assert dst[..] == dst[..start];
  }

  lemma {:induction false} MapBlocksStep(f: Bytes -> Bytes, x: Bytes)
    ensures |x| < BLOCK_SIZE ==> MapBlocks(f, x) == []
    ensures |x| >= BLOCK_SIZE ==> MapBlocks(f, x) == f(x[..BLOCK_SIZE]) + MapBlocks(f, x[BLOCK_SIZE..])
  {
  }

  /** None if the key is refused. */
  method EncryptAESECB(newCipher: Bytes -> Option<Cipher>, plaintext: Bytes, key: Bytes) returns (r: Option<Bytes>)
    requires newCipher(key).Some? ==> Permutation(newCipher(key).value)
    ensures r == if newCipher(key).None? then None else Some(Encrypted(newCipher(key).value, plaintext))
  {
    var block := newCipher(key);
    if block.None? {
      return None;
    }
    PaddedLength(|plaintext|, BLOCK_SIZE);
    var padded := Pkcs7Pad(plaintext, BLOCK_SIZE);
    var ciphertext := BlockByBlock(block.value.encrypt, padded[..]);
    r := Some(ciphertext[..]);
  }

  /** None if the key, the length or the padding is refused. */
  method DecryptAESECB(newCipher: Bytes -> Option<Cipher>, ciphertext: Bytes, key: Bytes) returns (r: Option<Bytes>)
    requires newCipher(key).Some? ==> Permutation(newCipher(key).value)
    ensures r == if newCipher(key).None? then None else Decrypted(newCipher(key).value, ciphertext)
  {
    var block := newCipher(key);
    if block.None? {
      return None;
    }
    if |ciphertext| % BLOCK_SIZE != 0 {
      return None;
    }
    var plaintext := BlockByBlock(block.value.decrypt, ciphertext);
    r := Pkcs7Unpad(plaintext[..], BLOCK_SIZE);
  }

  lemma {:induction false} MapBlocksInverse(f: Bytes -> Bytes, g: Bytes -> Bytes, x: Bytes)
    requires |x| % BLOCK_SIZE == 0
    requires forall b: Bytes :: |b| == BLOCK_SIZE ==> |f(b)| == BLOCK_SIZE && g(f(b)) == b
    ensures |MapBlocks(f, x)| == |x|
    ensures MapBlocks(g, MapBlocks(f, x)) == x
  {
    if |x| >= BLOCK_SIZE {
      var head, tail := x[..BLOCK_SIZE], x[BLOCK_SIZE..];
      MapBlocksInverse(f, g, tail);
      var y := f(head) + MapBlocks(f, tail);
      assert y[..BLOCK_SIZE] == f(head) && y[BLOCK_SIZE..] == MapBlocks(f, tail);
      assert head + tail == x;
    }
  }

  /** Decryption yields p exactly on the encryption of p. */
  lemma {:induction false} DecryptExactly(c: Cipher, x: Bytes, p: Bytes)
    requires Permutation(c)
    ensures Decrypted(c, x) == Some(p) <==> x == Encrypted(c, p)
  {
    var padded := Padded(p, BLOCK_SIZE);
    PaddedLength(|p|, BLOCK_SIZE);
    MapBlocksInverse(c.encrypt, c.decrypt, padded);
    UnpadExactly(padded, p, BLOCK_SIZE);
    if Decrypted(c, x) == Some(p) {
      MapBlocksInverse(c.decrypt, c.encrypt, x);
      UnpadExactly(MapBlocks(c.decrypt, x), p, BLOCK_SIZE);
    }
  }

  /** The ciphertext has the announced size, a positive multiple of the block size. */
  lemma {:induction false} EncryptedSize(c: Cipher, p: Bytes)
    requires Permutation(c)
    ensures |Encrypted(c, p)| == EcbSize(|p|)
    ensures |p| < EcbSize(|p|) <= |p| + 16 && EcbSize(|p|) % 16 == 0
  {
    PaddedLength(|p|, BLOCK_SIZE);
    MapBlocksInverse(c.encrypt, c.decrypt, Padded(p, BLOCK_SIZE));
  }

  /** Block k goes through f alone. */
  lemma {:induction false} BlockAt(f: Bytes -> Bytes, x: Bytes, k: nat)
    requires 16 * k + 16 <= |x| && forall b: Bytes :: |b| == 16 ==> |f(b)| == 16
    ensures 16 * k + 16 <= |MapBlocks(f, x)|
    ensures MapBlocks(f, x)[16 * k..16 * k + 16] == f(x[16 * k..16 * k + 16])
  {
    var rest := MapBlocks(f, x[16..]);
    assert MapBlocks(f, x) == f(x[..16]) + rest;
    if k > 0 {
      BlockAt(f, x[16..], k - 1);
      assert x[16..][16 * (k - 1)..16 * (k - 1) + 16] == x[16 * k..16 * k + 16];
      assert MapBlocks(f, x)[16 * k..16 * k + 16] == rest[16 * (k - 1)..16 * (k - 1) + 16];
    }
  }

  /** Encryption encrypts each block of the padded text, decryption decrypts each block of the ciphertext. */
  lemma {:induction false} EachBlock(c: Cipher, p: Bytes, x: Bytes, k: nat)
    requires Permutation(c)
    ensures 16 * k + 16 <= |Padded(p, 16)| ==>
              && 16 * k + 16 <= |Encrypted(c, p)|
              && Encrypted(c, p)[16 * k..16 * k + 16] == c.encrypt(Padded(p, 16)[16 * k..16 * k + 16])
    ensures Decrypted(c, x) == Some(p) && 16 * k + 16 <= |x| ==>
              && 16 * k + 16 <= |Padded(p, 16)|
              && Padded(p, 16)[16 * k..16 * k + 16] == c.decrypt(x[16 * k..16 * k + 16])
  {
    if 16 * k + 16 <= |Padded(p, 16)| {
      BlockAt(c.encrypt, Padded(p, 16), k);
    }
    if Decrypted(c, x) == Some(p) && 16 * k + 16 <= |x| {
      BlockAt(c.decrypt, x, k);
      UnpadExactly(MapBlocks(c.decrypt, x), p, 16);
    }
  }
}
