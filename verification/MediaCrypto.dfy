/** The chunked AEAD file format (internal/media/crypto.go). */
module MediaCrypto {
  import opened Prelude
  import Slicing

  type Byte = x: nat | x < 256

  type Bytes = seq<Byte>

  const CHUNK_SIZE := 0x10_0000
  const OVERHEAD := 16
  const NONCE_SIZE := 12
  const HEADER: Bytes := [0x4D, 0x45, 0x46, 0x31, 1, 0, 0x10, 0, 0]     // "MEF1", version 1, chunk size

  /** AES-GCM under one key, as far as the format relies on it. */
  datatype Aead = Aead(seal: (Bytes, Bytes) -> Bytes, open: (Bytes, Bytes) -> Option<Bytes>)

  ghost predicate Lawful(a: Aead) {
    forall n, p :: |a.seal(n, p)| == |p| + OVERHEAD && a.open(n, a.seal(n, p)) == Some(p)
  }

  // -------------------------------------------------------------------- nonces

  /** byte(n >> (i * 8)). */
  function ByteAt(n: nat, i: nat): Byte {
    if i == 0 then n % 256 else ByteAt(n / 256, i - 1)
  }

  /** Bitwise exclusive or of the low `bits` bits. */
  function Xor(x: nat, y: nat, bits: nat): nat {
    if bits == 0 then 0 else (if x % 2 == y % 2 then 0 else 1) + 2 * Xor(x / 2, y / 2, bits - 1)
  }

  lemma {:induction false} XorRange(x: nat, y: nat, bits: nat)
    ensures Xor(x, y, bits) < Power(2, bits)
    decreases bits
  {
    if bits > 0 { XorRange(x / 2, y / 2, bits - 1); }
  }

  lemma {:induction false} XorCancels(x: nat, y: nat, z: nat, bits: nat)
    requires y < Power(2, bits) && z < Power(2, bits) && Xor(x, y, bits) == Xor(x, z, bits)
    ensures y == z
    decreases bits
  {
    if bits > 0 {
      assert Xor(x, y, bits) % 2 == (if x % 2 == y % 2 then 0 else 1);
      assert Xor(x, z, bits) % 2 == (if x % 2 == z % 2 then 0 else 1);
      XorCancels(x / 2, y / 2, z / 2, bits - 1);
    }
  }

  function XorByte(x: Byte, y: Byte): Byte {
    XorRange(x, y, 8);
    assert Power(2, 8) == 256;
    Xor(x, y, 8)
  }

  function NonceByte(base: Bytes, idx: nat, k: nat): Byte
    requires |base| >= NONCE_SIZE && k < NONCE_SIZE
  {
    if k < 4 then base[k] else XorByte(base[k], ByteAt(idx, k - 4))
  }

  function ChunkNonce(base: Bytes, idx: nat): Bytes
    requires |base| >= NONCE_SIZE
  {
    seq(NONCE_SIZE, k requires 0 <= k < NONCE_SIZE => NonceByte(base, idx, k))
  }

  lemma {:induction false} DigitsDetermine(a: nat, b: nat, k: nat)
    requires a < Power(256, k) && b < Power(256, k)
    requires forall i | 0 <= i < k :: ByteAt(a, i) == ByteAt(b, i)
    ensures a == b
    decreases k
  {
    if k > 0 {
      forall i | 0 <= i < k - 1 ensures ByteAt(a / 256, i) == ByteAt(b / 256, i) {
        assert ByteAt(a, i + 1) == ByteAt(b, i + 1);
      }
      DigitsDetermine(a / 256, b / 256, k - 1);
      assert ByteAt(a, 0) == ByteAt(b, 0);
    }
  }

  /** Under one base nonce, distinct 64-bit chunk indices never share a nonce. */
  lemma {:induction false} NoncesAreDistinct(base: Bytes, i: nat, j: nat)
    requires |base| >= NONCE_SIZE && i < 0x1_0000_0000_0000_0000 && j < 0x1_0000_0000_0000_0000
    ensures ChunkNonce(base, i) == ChunkNonce(base, j) <==> i == j
  {
    if ChunkNonce(base, i) == ChunkNonce(base, j) {
      forall d | 0 <= d < 8 ensures ByteAt(i, d) == ByteAt(j, d) {
        assert ChunkNonce(base, i)[d + 4] == ChunkNonce(base, j)[d + 4];
        assert Power(2, 8) == 256;
        XorCancels(base[d + 4], ByteAt(i, d), ByteAt(j, d), 8);
      }
      DigitsDetermine(i, j, 8);
    }
  }

  function BitOf(n: nat, p: nat): nat {
    if p == 0 then n % 2 else BitOf(n / 2, p - 1)
  }

  /** Each bit is the sum of the two bits without the carry. */
  lemma {:induction false} XorBits(x: nat, y: nat, bits: nat, p: nat)
    requires p < bits
    ensures BitOf(Xor(x, y, bits), p) == (BitOf(x, p) + BitOf(y, p)) % 2
  {
    var b := if x % 2 == y % 2 then 0 else 1;
    assert Xor(x, y, bits) == b + 2 * Xor(x / 2, y / 2, bits - 1);
    if p > 0 { XorBits(x / 2, y / 2, bits - 1, p - 1); }
  }

  lemma {:induction false} XorTwice(x: nat, y: nat, bits: nat)
    requires y < Power(2, bits)
    ensures Xor(x, Xor(x, y, bits), bits) == y
    decreases bits
  {
    if bits > 0 {
      var b := if x % 2 == y % 2 then 0 else 1;
      assert Xor(x, y, bits) == b + 2 * Xor(x / 2, y / 2, bits - 1);
      XorTwice(x / 2, y / 2, bits - 1);
    }
  }

  /** The number of these bytes, the least significant first. */
  function Number(b: Bytes): nat {
    if b == [] then 0 else b[0] as nat + 256 * Number(b[1..])
  }

  function LowBytes(n: nat, k: nat): (b: Bytes)
    ensures |b| == k
  {
    seq(k, i requires 0 <= i < k => ByteAt(n, i))
  }

  lemma {:induction false} BytesNumber(n: nat, k: nat)
    requires n < Power(256, k)
    ensures Number(LowBytes(n, k)) == n
    decreases k
  {
    if k > 0 {
      BytesNumber(n / 256, k - 1);
      assert LowBytes(n, k)[1..] == LowBytes(n / 256, k - 1);
    }
  }

  /** The last eight bytes of the nonce, with the base's taken off again. */
  function Unmasked(base: Bytes, nonce: Bytes): (b: Bytes)
    requires |base| >= NONCE_SIZE && |nonce| == NONCE_SIZE
  {
    seq(8, d requires 0 <= d < 8 => XorByte(base[4 + d], nonce[4 + d]))
  }

  /** A chunk's nonce begins as the base nonce does, and goes on with the index, least byte first, over the base's bytes. */
  lemma {:induction false} NonceLayout(base: Bytes, idx: nat)
    requires |base| >= NONCE_SIZE && idx < 0x1_0000_0000_0000_0000
    ensures var nonce := ChunkNonce(base, idx);
      |nonce| == 12 && nonce[..4] == base[..4] && Number(Unmasked(base, nonce)) == idx
  {
    var nonce := ChunkNonce(base, idx);
    forall d | 0 <= d < 8 ensures Unmasked(base, nonce)[d] == ByteAt(idx, d) {
      assert Power(2, 8) == 256 && nonce[4 + d] == XorByte(base[4 + d], ByteAt(idx, d));
      XorTwice(base[4 + d], ByteAt(idx, d), 8);
    }
    assert Unmasked(base, nonce) == LowBytes(idx, 8);
    assert Power(256, 8) == 0x1_0000_0000_0000_0000;
    BytesNumber(idx, 8);
  }

  method DeriveChunkNonce(base: Bytes, chunkIdx: nat) returns (nonce: Bytes)
    requires |base| >= NONCE_SIZE
    ensures nonce == ChunkNonce(base, chunkIdx)
  {
    var buffer := new Byte[NONCE_SIZE](k requires 0 <= k < NONCE_SIZE => base[k]);
    var i, shifted := 0, chunkIdx;
    while i < 8
      invariant 0 <= i <= 8
      invariant forall d | i <= d < 8 :: ByteAt(shifted, d - i) == ByteAt(chunkIdx, d)
      invariant forall k | 0 <= k < NONCE_SIZE :: buffer[k] == if k < 4 + i then NonceByte(base, chunkIdx, k) else base[k]
    {
      ghost var before := shifted;
      assert ByteAt(shifted, i - i) == ByteAt(chunkIdx, i);
      buffer[NONCE_SIZE - 8 + i] := XorByte(buffer[NONCE_SIZE - 8 + i], shifted % 256);
      i, shifted := i + 1, shifted / 256;
      forall d | i <= d < 8 ensures ByteAt(shifted, d - i) == ByteAt(chunkIdx, d) {
        assert ByteAt(before, d - (i - 1)) == ByteAt(chunkIdx, d);
      }
    }
    nonce := buffer[..];
  }

  // -------------------------------------------------------------------- framing

  function PutUint32(n: nat): (b: Bytes)
    requires n < 0x1_0000_0000
    ensures |b| == 4
  {
    [n / 0x100_0000, n / 0x1_0000 % 256, n / 0x100 % 256, n % 256]
  }

  function Uint32(b: Bytes): nat
    requires |b| == 4
  {
    (b[0] as int) * 0x100_0000 + (b[1] as int) * 0x1_0000 + (b[2] as int) * 0x100 + b[3] as int
  }

  lemma {:induction false} ThirdByte(n: nat)
    ensures ByteAt(n, 1) == n / 256 % 256 && ByteAt(n, 2) == n / 256 / 256 % 256 && ByteAt(n, 3) == n / 256 / 256 / 256 % 256
  {
    assert ByteAt(n / 256, 1) == ByteAt(n / 256 / 256, 0);
    assert ByteAt(n / 256, 2) == ByteAt(n / 256 / 256, 1) == ByteAt(n / 256 / 256 / 256, 0);
  }

  lemma {:induction false} LengthRoundTrip(n: nat)
    requires n < 0x1_0000_0000
    ensures Uint32(PutUint32(n)) == n && forall k | 0 <= k < 4 :: PutUint32(n)[k] == ByteAt(n, 3 - k)
  {
    ThirdByte(n);
    assert n / 0x100_0000 == n / 0x1_0000 / 256;
    assert n / 0x1_0000 == n / 0x100 / 256;
  }

  function FirstChunk(n: nat): nat {
    if n < CHUNK_SIZE then n else CHUNK_SIZE
  }

  function Frame(a: Aead, base: Bytes, idx: nat, chunk: Bytes): Bytes
    requires |base| >= NONCE_SIZE && |chunk| <= CHUNK_SIZE
  {
    PutUint32(|chunk|) + a.seal(ChunkNonce(base, idx), chunk)
  }

  function Frames(a: Aead, base: Bytes, plain: Bytes, idx: nat): Bytes
    requires |base| >= NONCE_SIZE
    decreases |plain|
  {
    if plain == [] then []
    else
      var n := FirstChunk(|plain|);
      Frame(a, base, idx, plain[..n]) + Frames(a, base, plain[n..], idx + 1)
  }

  function Encrypted(a: Aead, base: Bytes, plain: Bytes): Bytes
    requires |base| >= NONCE_SIZE
  {
    HEADER + Frames(a, base, plain, 0)
  }

  /** The plaintext written and whether the call succeeded. */
  datatype Outcome = Outcome(written: Bytes, ok: bool)

  function DecryptFrames(a: Aead, base: Bytes, src: Bytes, idx: nat): Outcome
    requires |base| >= NONCE_SIZE
    decreases |src|
  {
    if src == [] then Outcome([], true)
    else if |src| < 4 then Outcome([], false)
    else
      var size := 4 + Uint32(src[..4]) + OVERHEAD;
      if |src| < size then Outcome([], false)
      else match a.open(ChunkNonce(base, idx), src[4..size])
        case None => Outcome([], false)
        case Some(p) => var rest := DecryptFrames(a, base, src[size..], idx + 1); Outcome(p + rest.written, rest.ok)
  }

  function Decrypted(a: Aead, base: Bytes, src: Bytes): Outcome
    requires |base| >= NONCE_SIZE
  {
    if |src| < |HEADER| || src[..4] != HEADER[..4] || src[4] != 1 then Outcome([], false)
    else DecryptFrames(a, base, src[9..], 0)
  }

  // ------------------------------------------------------------------- theorems

  /** Bytes of ciphertext after the header for n bytes of plaintext. */
  function FramesSize(n: nat): nat {
    if n == 0 then 0 else FirstChunk(n) + 20 + FramesSize(n - FirstChunk(n))
  }

  lemma {:induction false} FramesSizeIs(n: nat)
    ensures FramesSize(n) == n + 20 * Slicing.ChunkCount(n, CHUNK_SIZE)
    decreases n
  {
    if n > 0 {
      FramesSizeIs(n - FirstChunk(n));
      if n >= CHUNK_SIZE {
        assert Slicing.ChunkCount(n - CHUNK_SIZE, CHUNK_SIZE) == Slicing.ChunkCount(n, CHUNK_SIZE) - 1;
      }
    }
  }

  lemma {:induction false} FramesLength(a: Aead, base: Bytes, plain: Bytes, idx: nat)
    requires Lawful(a) && |base| >= NONCE_SIZE
    ensures |Frames(a, base, plain, idx)| == FramesSize(|plain|)
    decreases |plain|
  {
    if plain != [] {
      FramesLength(a, base, plain[FirstChunk(|plain|)..], idx + 1);
    }
  }

  /** The size the function reports: a 9-byte header, the plaintext, and 20 bytes per chunk. */
  lemma {:induction false} CiphertextSize(a: Aead, base: Bytes, plain: Bytes)
    requires Lawful(a) && |base| >= NONCE_SIZE
    ensures |Encrypted(a, base, plain)| == 9 + |plain| + 20 * Slicing.ChunkCount(|plain|, CHUNK_SIZE)
  {
    FramesLength(a, base, plain, 0);
    FramesSizeIs(|plain|);
  }

  /** Plaintext bytes whose frames lie wholly within the first c bytes after the header. */
  function WholeChunks(n: nat, c: nat): nat {
    if n == 0 || c < FirstChunk(n) + 20 then 0
    else FirstChunk(n) + WholeChunks(n - FirstChunk(n), c - FirstChunk(n) - 20)
  }

  function AtBoundary(n: nat, c: nat): bool {
    c == 0 || (n > 0 && c >= FirstChunk(n) + 20 && AtBoundary(n - FirstChunk(n), c - FirstChunk(n) - 20))
  }

  /** What a reader cut after c bytes makes of a non-empty file. */
  lemma {:induction false} CutOnce(a: Aead, base: Bytes, plain: Bytes, idx: nat, c: nat)
    requires Lawful(a) && |base| >= NONCE_SIZE && plain != [] && 4 <= c <= FramesSize(|plain|)
    ensures var n := FirstChunk(|plain|); var tail := Frames(a, base, plain[n..], idx + 1);
      && |tail| == FramesSize(|plain| - n)
      && |Frames(a, base, plain, idx)| == FramesSize(|plain|)
      && DecryptFrames(a, base, Frames(a, base, plain, idx)[..c], idx) ==
        if c < n + 20 then Outcome([], false)
        else var rest := DecryptFrames(a, base, tail[..c - n - 20], idx + 1); Outcome(plain[..n] + rest.written, rest.ok)
  {
    var n := FirstChunk(|plain|);
    FramesLength(a, base, plain[n..], idx + 1);
    FirstFrame(a, base, plain[..n], Frames(a, base, plain[n..], idx + 1), idx, c);
  }

  lemma {:induction false} WholeAtMost(n: nat, c: nat)
    ensures WholeChunks(n, c) <= n
    decreases n
  {
    if n > 0 && c >= FirstChunk(n) + 20 { WholeAtMost(n - FirstChunk(n), c - FirstChunk(n) - 20); }
  }

  lemma {:induction false} JoinWritten(first: Outcome, rest: Outcome, plain: Bytes, n: nat, w: nat, ok: bool)
    requires n + w <= |plain|
    requires first == Outcome(plain[..n] + rest.written, rest.ok) && rest == Outcome(plain[n..][..w], ok)
    ensures first == Outcome(plain[..n + w], ok)
  {
  }

  // ---------------------------------------------------------------------- tampering

  /** The plaintext after its first idx chunks. */
  function After(plain: Bytes, idx: nat): Bytes {
    if idx == 0 then plain
    else
      var rest := After(plain, idx - 1);
      rest[FirstChunk(|rest|)..]
  }

  /** Chunk i of the file, sealed. */
  ghost predicate SealedAt(a: Aead, base: Bytes, plain: Bytes, i: nat, nonce: Bytes, c: Bytes)
    requires |base| >= NONCE_SIZE
  {
    var rest := After(plain, i);
    i < Power(256, 8) && nonce == ChunkNonce(base, i) && rest != [] && c == a.seal(nonce, rest[..FirstChunk(|rest|)])
  }

  /** The first chunk of what is left. */
  predicate OpensTo(chunk: Bytes, rest: Bytes) {
    rest != [] && chunk == rest[..FirstChunk(|rest|)]
  }

  /**
   * An ideal AEAD whose key sealed this file and nothing else: Open accepts the
   * file's sealed chunks, each under its own nonce, and nothing besides.
   */
  ghost predicate Ideal(a: Aead, base: Bytes, plain: Bytes)
    requires |base| >= NONCE_SIZE
  {
    && (forall i, nonce, c | SealedAt(a, base, plain, i, nonce, c) :: a.open(nonce, c).Some? && OpensTo(a.open(nonce, c).value, After(plain, i)))
    && (forall nonce, c | a.open(nonce, c).Some? :: exists i :: SealedAt(a, base, plain, i, nonce, c))
  }

  /** At position idx only the chunk of that position opens: no other position has its nonce. */
  lemma {:induction false} OpensOwnChunk(a: Aead, base: Bytes, plain: Bytes, idx: nat, c: Bytes)
    requires |base| >= NONCE_SIZE && Ideal(a, base, plain)
    requires idx < Power(256, 8) && a.open(ChunkNonce(base, idx), c).Some?
    ensures OpensTo(a.open(ChunkNonce(base, idx), c).value, After(plain, idx))
  {
    var nonce := ChunkNonce(base, idx);
    var i :| SealedAt(a, base, plain, i, nonce, c);
    assert Power(256, 8) == 0x1_0000_0000_0000_0000;
    NoncesAreDistinct(base, i, idx);
  }

  /** A sealing that a plain tag of zeros stands for. */
  function ZeroTagged(chunk: Bytes): Bytes {
    chunk + seq(OVERHEAD, _ => 0)
  }

  /** The chunk of this file, if there is one, whose sealed form under this nonce is c. */
  ghost predicate ZeroSealed(base: Bytes, plain: Bytes, i: nat, nonce: Bytes, c: Bytes)
    requires |base| >= NONCE_SIZE
  {
    var rest := After(plain, i);
    i < Power(256, 8) && nonce == ChunkNonce(base, i) && rest != [] && c == ZeroTagged(rest[..FirstChunk(|rest|)])
  }

  /** Such an AEAD is possible, for every base nonce and every file. */
  lemma {:induction false} IdealExists(base: Bytes, plain: Bytes) returns (a: Aead)
    requires |base| >= NONCE_SIZE
    ensures Ideal(a, base, plain) && forall n, p :: |a.seal(n, p)| == |p| + OVERHEAD
  {
    a := Aead((n, p) => ZeroTagged(p),
              (n, c) => if exists i: nat :: ZeroSealed(base, plain, i, n, c) then Some(c[..|c| - OVERHEAD]) else None);
    forall i, n, c | SealedAt(a, base, plain, i, n, c) ensures a.open(n, c).Some? && OpensTo(a.open(n, c).value, After(plain, i)) {
      assert ZeroSealed(base, plain, i, n, c);
    }
    forall n, c | a.open(n, c).Some? ensures exists i :: SealedAt(a, base, plain, i, n, c) {
      var i: nat :| ZeroSealed(base, plain, i, n, c);
      assert SealedAt(a, base, plain, i, n, c);
    }
  }

  /** So at every position nothing else opens. */
  ghost predicate OpensInPlace(a: Aead, base: Bytes, plain: Bytes)
    requires |base| >= NONCE_SIZE
  {
    forall idx: nat, c | idx < Power(256, 8) && a.open(ChunkNonce(base, idx), c).Some? ::
      OpensTo(a.open(ChunkNonce(base, idx), c).value, After(plain, idx))
  }

  /** What a reader writes is whole chunks of `rest`, from its start. */
  ghost predicate WholePrefix(w: Bytes, rest: Bytes)
    decreases |rest|
  {
    var n := FirstChunk(|rest|);
    w == [] || (rest != [] && rest[..n] <= w && WholePrefix(w[n..], rest[n..]))
  }

  /** A frame that opens is written, and reading goes on after it. */
  lemma {:induction false} ReadsOn(a: Aead, base: Bytes, src: Bytes, idx: nat, size: nat, chunk: Bytes)
    requires |base| >= NONCE_SIZE && 4 <= |src| && size == 4 + Uint32(src[..4]) + OVERHEAD <= |src|
    requires a.open(ChunkNonce(base, idx), src[4..size]) == Some(chunk)
    ensures DecryptFrames(a, base, src, idx).written == chunk + DecryptFrames(a, base, src[size..], idx + 1).written
  {
  }

  lemma {:induction false} ReadsNoMore(a: Aead, base: Bytes, src: Bytes, idx: nat)
    requires |base| >= NONCE_SIZE
    requires 4 <= |src| ==> var size := 4 + Uint32(src[..4]) + OVERHEAD; |src| < size || a.open(ChunkNonce(base, idx), src[4..size]).None?
    ensures DecryptFrames(a, base, src, idx).written == []
  {
  }

  lemma {:induction false} ChunkInPlace(a: Aead, base: Bytes, plain: Bytes, idx: nat, c: Bytes, chunk: Bytes)
    requires |base| >= NONCE_SIZE && OpensInPlace(a, base, plain) && idx < Power(256, 8) && a.open(ChunkNonce(base, idx), c) == Some(chunk)
    ensures OpensTo(chunk, After(plain, idx)) && After(plain, idx + 1) == After(plain, idx)[FirstChunk(|After(plain, idx)|)..]
  {
  }

  lemma {:induction false} TamperedFrames(a: Aead, base: Bytes, plain: Bytes, src: Bytes, idx: nat)
    requires |base| >= NONCE_SIZE && OpensInPlace(a, base, plain) && idx + |src| < Power(256, 8)
    ensures WholePrefix(DecryptFrames(a, base, src, idx).written, After(plain, idx))
    decreases |src|
  {
    var size := if |src| < 4 then |src| + 1 else 4 + Uint32(src[..4]) + OVERHEAD;
    if |src| < size || a.open(ChunkNonce(base, idx), src[4..size]).None? {
      ReadsNoMore(a, base, src, idx);
    } else {
      var chunk := a.open(ChunkNonce(base, idx), src[4..size]).value;
      ReadsOn(a, base, src, idx, size, chunk);
      ChunkInPlace(a, base, plain, idx, src[4..size], chunk);
      TamperedFrames(a, base, plain, src[size..], idx + 1);
      OneMoreChunk(chunk, DecryptFrames(a, base, src[size..], idx + 1).written, After(plain, idx));
    }
  }

  lemma {:induction false} OneMoreChunk(chunk: Bytes, tail: Bytes, rest: Bytes)
    requires OpensTo(chunk, rest) && WholePrefix(tail, rest[FirstChunk(|rest|)..])
    ensures WholePrefix(chunk + tail, rest)
  {
    assert (chunk + tail)[|chunk|..] == tail;
  }

  /** Whole chunks from the start are a prefix that ends where a chunk or the file does. */
  lemma {:induction false} WholePrefixIs(w: Bytes, rest: Bytes)
    requires WholePrefix(w, rest)
    ensures w <= rest && (w == rest || |w| % CHUNK_SIZE == 0)
    decreases |rest|
  {
    var n := FirstChunk(|rest|);
    if w != [] {
      WholePrefixIs(w[n..], rest[n..]);
      assert w == rest[..n] + w[n..];
    }
  }

  /**
   * Whatever is done to the stored bytes - frames altered, reordered, repeated,
   * dropped, added - the reader writes nothing but the file's own chunks from
   * the start, in order and each once.
   */
  lemma {:induction false} TamperedFile(a: Aead, base: Bytes, plain: Bytes, src: Bytes)
    requires |base| >= NONCE_SIZE && Ideal(a, base, plain) && |src| < Power(256, 8)
    ensures var w := Decrypted(a, base, src).written; w <= plain && (w == plain || |w| % CHUNK_SIZE == 0)
  {
    if |src| >= |HEADER| {
      assert OpensInPlace(a, base, plain) by {
        forall idx: nat, c | idx < Power(256, 8) && a.open(ChunkNonce(base, idx), c).Some?
          ensures OpensTo(a.open(ChunkNonce(base, idx), c).value, After(plain, idx))
        {
          OpensOwnChunk(a, base, plain, idx, c);
        }
      }
      TamperedFrames(a, base, plain, src[9..], 0);
      WholePrefixIs(DecryptFrames(a, base, src[9..], 0).written, plain);
    }
  }

  // --------------------------------------------------- what a reader accepts at all

  ghost predicate SealsInLength(a: Aead) {
    forall nonce, p :: |a.seal(nonce, p)| == |p| + OVERHEAD
  }

  /** The first j sealed frames of `rest`. */
  function FirstFrames(a: Aead, base: Bytes, rest: Bytes, idx: nat, j: nat): Bytes
    requires |base| >= NONCE_SIZE
  {
    if j == 0 || rest == [] then []
    else
      var n := FirstChunk(|rest|);
      Frame(a, base, idx, rest[..n]) + FirstFrames(a, base, rest[n..], idx + 1, j - 1)
  }

  /** Their plaintext. */
  function FirstChunks(rest: Bytes, j: nat): Bytes {
    if j == 0 || rest == [] then [] else rest[..FirstChunk(|rest|)] + FirstChunks(rest[FirstChunk(|rest|)..], j - 1)
  }

  lemma {:induction false} LengthTwice(b: Bytes)
    requires |b| == 4
    ensures Uint32(b) < 0x1_0000_0000 && PutUint32(Uint32(b)) == b
  {
    var n, b0, b1, b2, b3 := Uint32(b), b[0] as int, b[1] as int, b[2] as int, b[3] as int;
    assert n / 0x100_0000 == b0;
    assert n / 0x1_0000 == b0 * 0x100 + b1 && n / 0x1_0000 % 256 == b1;
    assert n / 0x100 == b0 * 0x1_0000 + b1 * 0x100 + b2;
    assert n / 0x100 % 256 == b2 by { assert n / 0x100 == 256 * (b0 * 0x100 + b1) + b2; }
    assert n % 256 == b3 by { assert n == 256 * (b0 * 0x1_0000 + b1 * 0x100 + b2) + b3; }
    assert PutUint32(n) == [b[0], b[1], b[2], b[3]];
  }

  lemma {:induction false} FrameParts(a: Aead, base: Bytes, chunk: Bytes, tail: Bytes, idx: nat)
    requires |base| >= NONCE_SIZE && SealsInLength(a) && |chunk| <= CHUNK_SIZE
    ensures var src := Frame(a, base, idx, chunk) + tail; var size := 4 + |chunk| + OVERHEAD;
      && |src| == size + |tail| && Uint32(src[..4]) == |chunk|
      && src[4..size] == a.seal(ChunkNonce(base, idx), chunk) && src[size..] == tail
  {
    var head, body := PutUint32(|chunk|), a.seal(ChunkNonce(base, idx), chunk);
    var src := head + body + tail;
    assert src[..4] == head;
    LengthRoundTrip(|chunk|);
    CutParts(head, body, tail, |src|);
    assert src[..|src|] == src && tail[..|tail|] == tail;
  }

  /** The frame of chunk i stands after the full frames of the ones before it. */
  lemma {:induction false} FrameAt(a: Aead, base: Bytes, plain: Bytes, idx: nat, i: nat, chunk: Bytes) returns (pre: Bytes, post: Bytes)
    requires |base| >= NONCE_SIZE && SealsInLength(a) && i * 0x10_0000 < |plain|
    requires chunk == plain[i * 0x10_0000..Least(i * 0x10_0000 + 0x10_0000, |plain|)]
    ensures |pre| == i * 0x10_0014 && |chunk| <= CHUNK_SIZE
    ensures Frames(a, base, plain, idx) == pre + Frame(a, base, idx + i, chunk) + post
    decreases i
  {
    var n := FirstChunk(|plain|);
    var first, tail := Frame(a, base, idx, plain[..n]), Frames(a, base, plain[n..], idx + 1);
    if i == 0 {
      pre, post := [], tail;
      assert chunk == plain[..n];
      assert [] + first == first;
    } else {
      assert n == 0x10_0000 && (i - 1) * 0x10_0000 + 0x10_0000 == i * 0x10_0000;
      SliceOfTail(plain, n, (i - 1) * 0x10_0000, Least((i - 1) * 0x10_0000 + 0x10_0000, |plain| - n));
      var before;
      before, post := FrameAt(a, base, plain[n..], idx + 1, i - 1, chunk);
      pre := first + before;
      JoinFour(first, before, Frame(a, base, idx + i, chunk), post);
    }
  }

  lemma {:induction false} SliceOfTail(b: Bytes, n: nat, lo: nat, hi: nat)
    requires lo <= hi && n + hi <= |b|
    ensures b[n..][lo..hi] == b[n + lo..n + hi]
  {
  }

  lemma {:induction false} JoinFour(x: Bytes, y: Bytes, z: Bytes, w: Bytes)
    ensures x + (y + z + w) == x + y + z + w
  {
  }

  /**
   * The file, byte by byte: "MEF1", the version, the chunk size, and at a fixed
   * distance for each mebibyte of plaintext its length, most significant byte
   * first, and its sealed bytes.
   */
  lemma {:induction false} FileLayout(a: Aead, base: Bytes, plain: Bytes, i: nat, chunk: Bytes)
    requires |base| >= NONCE_SIZE && SealsInLength(a) && i * 0x10_0000 < |plain|
    requires chunk == plain[i * 0x10_0000..Least(i * 0x10_0000 + 0x10_0000, |plain|)]
    ensures var file, at := Encrypted(a, base, plain), 9 + i * 0x10_0014;
      && at + 20 + |chunk| <= |file|
      && file[..9] == [0x4D, 0x45, 0x46, 0x31, 1] + PutUint32(0x10_0000)
      && file[at..at + 4] == PutUint32(|chunk|)
      && file[at + 4..at + 20 + |chunk|] == a.seal(ChunkNonce(base, i), chunk)
  {
    var pre, post := FrameAt(a, base, plain, 0, i, chunk);
    var head, body := PutUint32(|chunk|), a.seal(ChunkNonce(base, i), chunk);
    HeaderIs();
    InTheMiddle(HEADER, pre, head, body, post, Encrypted(a, base, plain));
  }

  lemma {:induction false} HeaderIs()
    ensures |HEADER| == 9 && HEADER == [0x4D, 0x45, 0x46, 0x31, 1] + PutUint32(0x10_0000)
  {
    assert PutUint32(0x10_0000) == [0, 0x10, 0, 0];
  }

  lemma {:induction false} InTheMiddle(x: Bytes, pre: Bytes, head: Bytes, body: Bytes, post: Bytes, all: Bytes)
    requires all == x + (pre + (head + body) + post)
    ensures var at := |x| + |pre|;
      && at + |head| + |body| <= |all| && all[..|x|] == x
      && all[at..at + |head|] == head && all[at + |head|..at + |head| + |body|] == body
  {
  }

  /** One frame that opens is the sealed frame of its position. */
  lemma {:induction false} OpenedFrame(a: Aead, base: Bytes, plain: Bytes, src: Bytes, idx: nat)
    requires |base| >= NONCE_SIZE && SealsInLength(a) && Ideal(a, base, plain) && idx < Power(256, 8) && |src| >= 4
    requires var size := 4 + Uint32(src[..4]) + OVERHEAD; |src| >= size && a.open(ChunkNonce(base, idx), src[4..size]).Some?
    ensures var rest := After(plain, idx); var size := 4 + Uint32(src[..4]) + OVERHEAD;
      && rest != [] && a.open(ChunkNonce(base, idx), src[4..size]).value == rest[..FirstChunk(|rest|)]
      && src == Frame(a, base, idx, rest[..FirstChunk(|rest|)]) + src[size..]
  {
    var nonce, size, rest := ChunkNonce(base, idx), 4 + Uint32(src[..4]) + OVERHEAD, After(plain, idx);
    var c := src[4..size];
    var i :| SealedAt(a, base, plain, i, nonce, c);
    assert Power(256, 8) == 0x1_0000_0000_0000_0000;
    NoncesAreDistinct(base, i, idx);
    OpensOwnChunk(a, base, plain, idx, c);
    var chunk := rest[..FirstChunk(|rest|)];
    assert c == a.seal(nonce, chunk) && |c| == |chunk| + OVERHEAD;
    LengthTwice(src[..4]);
    assert src == src[..4] + c + src[size..];
  }

  /** The reader accepts nothing but the first frames of the file. */
  lemma {:induction false} AcceptedAreFirst(a: Aead, base: Bytes, plain: Bytes, src: Bytes, idx: nat) returns (j: nat)
    requires |base| >= NONCE_SIZE && SealsInLength(a) && Ideal(a, base, plain) && idx + |src| < Power(256, 8)
    requires DecryptFrames(a, base, src, idx).ok
    ensures src == FirstFrames(a, base, After(plain, idx), idx, j) && j <= Slicing.ChunkCount(|After(plain, idx)|, CHUNK_SIZE)
    decreases |src|
  {
    if src == [] {
      j := 0;
    } else {
      var rest, size := After(plain, idx), 4 + Uint32(src[..4]) + OVERHEAD;
      OpenedFrame(a, base, plain, src, idx);
      var k := AcceptedAreFirst(a, base, plain, src[size..], idx + 1);
      assert After(plain, idx + 1) == rest[FirstChunk(|rest|)..];
      EndOfNext(|rest|, k + 1);
      j := k + 1;
    }
  }

  /** A frame that opens is written and read past. */
  lemma {:induction false} FrameAccepted(a: Aead, base: Bytes, chunk: Bytes, tail: Bytes, idx: nat, rest: Outcome)
    requires |base| >= NONCE_SIZE && SealsInLength(a) && |chunk| <= CHUNK_SIZE && rest == DecryptFrames(a, base, tail, idx + 1)
    requires a.open(ChunkNonce(base, idx), a.seal(ChunkNonce(base, idx), chunk)) == Some(chunk)
    ensures DecryptFrames(a, base, Frame(a, base, idx, chunk) + tail, idx) == Outcome(chunk + rest.written, rest.ok)
  {
    FrameParts(a, base, chunk, tail, idx);
  }

  /** The next j chunks open, each at its own position. */
  ghost predicate OpensFrom(a: Aead, base: Bytes, rest: Bytes, idx: nat, j: nat)
    requires |base| >= NONCE_SIZE
  {
    j == 0 || rest == []
    || (OpensHere(a, base, rest[..FirstChunk(|rest|)], idx) && OpensFrom(a, base, rest[FirstChunk(|rest|)..], idx + 1, j - 1))
  }

  ghost predicate OpensHere(a: Aead, base: Bytes, chunk: Bytes, idx: nat)
    requires |base| >= NONCE_SIZE
  {
    a.open(ChunkNonce(base, idx), a.seal(ChunkNonce(base, idx), chunk)) == Some(chunk)
  }

  lemma {:induction false} IdealOpensFrom(a: Aead, base: Bytes, plain: Bytes, rest: Bytes, idx: nat, j: nat)
    requires |base| >= NONCE_SIZE && Ideal(a, base, plain) && rest == After(plain, idx) && idx + j <= Power(256, 8)
    ensures OpensFrom(a, base, rest, idx, j)
    decreases j
  {
    if j > 0 && rest != [] {
      var n, nonce := FirstChunk(|rest|), ChunkNonce(base, idx);
      assert SealedAt(a, base, plain, idx, nonce, a.seal(nonce, rest[..n]));
      IdealOpensFrom(a, base, plain, rest[n..], idx + 1, j - 1);
    }
  }

  /** And those it accepts, writing their chunks. */
  lemma {:induction false} FirstAreAccepted(a: Aead, base: Bytes, rest: Bytes, idx: nat, j: nat)
    requires |base| >= NONCE_SIZE && SealsInLength(a) && OpensFrom(a, base, rest, idx, j)
    ensures DecryptFrames(a, base, FirstFrames(a, base, rest, idx, j), idx) == Outcome(FirstChunks(rest, j), true)
    decreases j
  {
    if j > 0 && rest != [] {
      var n := FirstChunk(|rest|);
      var chunk, after := rest[..n], rest[n..];
      var tail, more := FirstFrames(a, base, after, idx + 1, j - 1), Outcome(FirstChunks(after, j - 1), true);
      assert DecryptFrames(a, base, tail, idx + 1) == more by { FirstAreAccepted(a, base, after, idx + 1, j - 1); }
      FrameAccepted(a, base, chunk, tail, idx, more);
    }
  }

  /** Reading the first c bytes of the frames. */
  lemma {:induction false} CutFrames(a: Aead, base: Bytes, plain: Bytes, idx: nat, c: nat)
    requires Lawful(a) && |base| >= NONCE_SIZE && c <= |Frames(a, base, plain, idx)| == FramesSize(|plain|)
    ensures WholeChunks(|plain|, c) <= |plain|
    ensures DecryptFrames(a, base, Frames(a, base, plain, idx)[..c], idx)
         == Outcome(plain[..WholeChunks(|plain|, c)], AtBoundary(|plain|, c))
    decreases |plain|
  {
    WholeAtMost(|plain|, c);
    var n := FirstChunk(|plain|);
    if plain == [] || c < 4 {
    } else if c < n + 20 {
      CutOnce(a, base, plain, idx, c);
      assert plain[..0] == [];
    } else {
      CutRest(a, base, plain, idx, c);
    }
  }

  lemma {:induction false} CutRest(a: Aead, base: Bytes, plain: Bytes, idx: nat, c: nat)
    requires Lawful(a) && |base| >= NONCE_SIZE && plain != []
    requires FirstChunk(|plain|) + 20 <= c <= |Frames(a, base, plain, idx)| == FramesSize(|plain|)
    requires WholeChunks(|plain|, c) <= |plain|
    ensures DecryptFrames(a, base, Frames(a, base, plain, idx)[..c], idx)
         == Outcome(plain[..WholeChunks(|plain|, c)], AtBoundary(|plain|, c))
    decreases |plain|, 0
  {
    var n := FirstChunk(|plain|);
    var k := c - n - 20;
    var tail := Frames(a, base, plain[n..], idx + 1);
    assert |tail| == FramesSize(|plain| - n) by { CutOnce(a, base, plain, idx, c); }
    var first := DecryptFrames(a, base, Frames(a, base, plain, idx)[..c], idx);
    var rest := DecryptFrames(a, base, tail[..k], idx + 1);
    assert first == Outcome(plain[..n] + rest.written, rest.ok) by { CutOnce(a, base, plain, idx, c); }
    assert rest == Outcome(plain[n..][..WholeChunks(|plain| - n, k)], AtBoundary(|plain| - n, k)) by {
      CutFrames(a, base, plain[n..], idx + 1, k);
    }
    WholeAtMost(|plain| - n, k);
    JoinWritten(first, rest, plain, n, WholeChunks(|plain| - n, k), AtBoundary(|plain| - n, k));
    assert WholeChunks(|plain|, c) == n + WholeChunks(|plain| - n, k) && AtBoundary(|plain|, c) == AtBoundary(|plain| - n, k);
  }

  /** Reading a frame that may be cut. */
  lemma {:induction false} FirstFrame(a: Aead, base: Bytes, chunk: Bytes, tail: Bytes, idx: nat, c: nat)
    requires Lawful(a) && |base| >= NONCE_SIZE && |chunk| <= CHUNK_SIZE && 4 <= c <= |chunk| + 20 + |tail|
    ensures |Frame(a, base, idx, chunk)| == |chunk| + 20
    ensures DecryptFrames(a, base, (Frame(a, base, idx, chunk) + tail)[..c], idx) ==
      if c < |chunk| + 20 then Outcome([], false)
      else var rest := DecryptFrames(a, base, tail[..c - |chunk| - 20], idx + 1); Outcome(chunk + rest.written, rest.ok)
  {
    var n := |chunk|;
    var cut := (Frame(a, base, idx, chunk) + tail)[..c];
    assert cut[..4] == PutUint32(n);
    LengthRoundTrip(n);
    if c >= n + 20 {
      CutParts(PutUint32(n), a.seal(ChunkNonce(base, idx), chunk), tail, c);
    }
  }

  lemma {:induction false} CutParts(head: Bytes, body: Bytes, tail: Bytes, c: nat)
    requires |head| + |body| <= c <= |head| + |body| + |tail|
    ensures var cut := (head + body + tail)[..c]; var n := |head| + |body|;
      cut[|head|..n] == body && cut[n..] == tail[..c - n]
  {
  }

  /** Decrypting the whole file gives the plaintext back, for every length. */
  lemma {:induction false} RoundTrip(a: Aead, base: Bytes, plain: Bytes)
    requires Lawful(a) && |base| >= NONCE_SIZE
    ensures Decrypted(a, base, Encrypted(a, base, plain)) == Outcome(plain, true)
  {
    var c := FramesSize(|plain|);
    FramesLength(a, base, plain, 0);
    CutFrames(a, base, plain, 0, c);
    WholeAtEnd(|plain|);
    var e := Encrypted(a, base, plain);
    assert e[..4] == HEADER[..4] && e[9..] == Frames(a, base, plain, 0);
    assert Frames(a, base, plain, 0)[..c] == Frames(a, base, plain, 0);
    assert plain[..|plain|] == plain;
  }

  lemma {:induction false} WholeAtEnd(n: nat)
    ensures WholeChunks(n, FramesSize(n)) == n && AtBoundary(n, FramesSize(n))
    decreases n
  {
    if n > 0 { WholeAtEnd(n - FirstChunk(n)); }
  }

  function Least(x: nat, y: nat): nat {
    if x < y then x else y
  }

  /** Where the first j chunks end, counted from the end of the header. */
  function EndOf(n: nat, j: nat): nat {
    Least(j * 0x10_0000, n) + 20 * j
  }

  lemma {:induction false} EndOfNext(n: nat, j: nat)
    requires n > 0 && j > 0
    ensures EndOf(n, j) == FirstChunk(n) + 20 + EndOf(n - FirstChunk(n), j - 1)
    ensures Slicing.ChunkCount(n, CHUNK_SIZE) == 1 + Slicing.ChunkCount(n - FirstChunk(n), CHUNK_SIZE)
  {
  }

  lemma {:induction false} BoundaryIsEnd(n: nat, c: nat) returns (j: nat)
    requires AtBoundary(n, c)
    ensures j <= Slicing.ChunkCount(n, CHUNK_SIZE) && c == EndOf(n, j)
    decreases n
  {
    j := 0;
    if c != 0 {
      var k := BoundaryIsEnd(n - FirstChunk(n), c - FirstChunk(n) - 20);
      j := k + 1;
      EndOfNext(n, j);
    }
  }

  lemma {:induction false} EndIsBoundary(n: nat, j: nat)
    requires j <= Slicing.ChunkCount(n, CHUNK_SIZE)
    ensures AtBoundary(n, EndOf(n, j))
    decreases j
  {
    if j > 0 {
      EndOfNext(n, j);
      EndIsBoundary(n - FirstChunk(n), j - 1);
    }
  }

  lemma {:induction false} WholeIsMultiple(n: nat, c: nat)
    ensures WholeChunks(n, c) == n || WholeChunks(n, c) % CHUNK_SIZE == 0
    decreases n
  {
    if n > 0 && c >= FirstChunk(n) + 20 {
      WholeIsMultiple(n - FirstChunk(n), c - FirstChunk(n) - 20);
    }
  }

  ghost predicate ChunkBoundary(n: nat, c: nat) {
    exists j: nat :: j <= Slicing.ChunkCount(n, CHUNK_SIZE) && c == |HEADER| + EndOf(n, j)
  }

  lemma {:induction false} BoundaryIff(n: nat, c: nat)
    ensures AtBoundary(n, c) <==> ChunkBoundary(n, c + 9)
  {
    if AtBoundary(n, c) {
      var j := BoundaryIsEnd(n, c);
    }
    if ChunkBoundary(n, c + 9) {
      var j: nat :| j <= Slicing.ChunkCount(n, CHUNK_SIZE) && c + 9 == |HEADER| + EndOf(n, j);
      EndIsBoundary(n, j);
    }
  }

  /**
   * A file cut short after c bytes: only whole leading chunks are written, and
   * the call succeeds exactly when the cut is at a chunk boundary at or after
   * the header.
   */
  lemma {:induction false} TruncatedFile(a: Aead, base: Bytes, plain: Bytes, c: nat)
    requires Lawful(a) && |base| >= NONCE_SIZE && c <= |Encrypted(a, base, plain)|
    ensures var r := Decrypted(a, base, Encrypted(a, base, plain)[..c]);
      && r.written <= plain
      && (r.written == plain || |r.written| % CHUNK_SIZE == 0)
      && (r.ok <==> ChunkBoundary(|plain|, c))
  {
    FramesLength(a, base, plain, 0);
    var cut := Encrypted(a, base, plain)[..c];
    if c >= 9 {
      AfterHeader(a, base, plain, c - 9);
      WholeIsMultiple(|plain|, c - 9);
      BoundaryIff(|plain|, c - 9);
    } else {
      assert Decrypted(a, base, cut) == Outcome([], false);
    }
  }

  lemma {:induction false} AfterHeader(a: Aead, base: Bytes, plain: Bytes, c: nat)
    requires Lawful(a) && |base| >= NONCE_SIZE && c <= FramesSize(|plain|)
    requires |Frames(a, base, plain, 0)| == FramesSize(|plain|)
    ensures WholeChunks(|plain|, c) <= |plain|
    ensures Decrypted(a, base, Encrypted(a, base, plain)[..c + 9]) == Outcome(plain[..WholeChunks(|plain|, c)], AtBoundary(|plain|, c))
  {
    CutFrames(a, base, plain, 0, c);
    var cut := Encrypted(a, base, plain)[..c + 9];
    assert cut[..4] == HEADER[..4] && cut[4] == HEADER[4] && cut[9..] == Frames(a, base, plain, 0)[..c];
  }

  // ------------------------------------------------------------- tampering, decided

  lemma {:induction false} PrefixAfter(x: Bytes, a: Bytes, b: Bytes, n: nat)
    requires a <= b && |x| + |a| == n
    ensures x + a <= x + b && |x + a| == n
  {
  }

  lemma {:induction false} SomeChunk(n: nat, j: nat)
    requires 0 < j <= Slicing.ChunkCount(n, CHUNK_SIZE)
    ensures n > 0 && j - 1 <= Slicing.ChunkCount(n - FirstChunk(n), CHUNK_SIZE)
    ensures EndOf(n, j) == FirstChunk(n) + 20 + EndOf(n - FirstChunk(n), j - 1)
  {
    EndOfNext(n, j);
  }

  lemma {:induction false} FramesSplit(a: Aead, base: Bytes, rest: Bytes, idx: nat, j: nat)
    requires |base| >= NONCE_SIZE && SealsInLength(a) && j > 0 && rest != []
    ensures var n := FirstChunk(|rest|); var frame := Frame(a, base, idx, rest[..n]);
      && |frame| == n + 20
      && FirstFrames(a, base, rest, idx, j) == frame + FirstFrames(a, base, rest[n..], idx + 1, j - 1)
      && Frames(a, base, rest, idx) == frame + Frames(a, base, rest[n..], idx + 1)
  {
    FrameLength(a, base, idx, rest[..FirstChunk(|rest|)]);
  }

  lemma {:induction false} FrameLength(a: Aead, base: Bytes, idx: nat, chunk: Bytes)
    requires |base| >= NONCE_SIZE && SealsInLength(a) && |chunk| <= CHUNK_SIZE
    ensures |Frame(a, base, idx, chunk)| == |chunk| + 20
  {
  }

  lemma {:induction false} EndStep(a: Aead, base: Bytes, rest: Bytes, idx: nat, j: nat, first: Bytes, all: Bytes)
    requires |base| >= NONCE_SIZE && SealsInLength(a) && 0 < j && rest != []
    requires var n := FirstChunk(|rest|);
      && first == FirstFrames(a, base, rest[n..], idx + 1, j - 1) && all == Frames(a, base, rest[n..], idx + 1)
      && EndOf(|rest|, j) == n + 20 + |first| && first <= all
    ensures |FirstFrames(a, base, rest, idx, j)| == EndOf(|rest|, j) && FirstFrames(a, base, rest, idx, j) <= Frames(a, base, rest, idx)
  {
    FramesSplit(a, base, rest, idx, j);
    PrefixAfter(Frame(a, base, idx, rest[..FirstChunk(|rest|)]), first, all, EndOf(|rest|, j));
  }

  /** The first j frames end where the file's j-th chunk ends. */
  lemma {:induction false} FirstFramesEnd(a: Aead, base: Bytes, rest: Bytes, idx: nat, j: nat)
    requires |base| >= NONCE_SIZE && SealsInLength(a) && j <= Slicing.ChunkCount(|rest|, CHUNK_SIZE)
    ensures |FirstFrames(a, base, rest, idx, j)| == EndOf(|rest|, j) && FirstFrames(a, base, rest, idx, j) <= Frames(a, base, rest, idx)
    decreases j
  {
    if j > 0 {
      SomeChunk(|rest|, j);
      var n := FirstChunk(|rest|);
      var first, all := FirstFrames(a, base, rest[n..], idx + 1, j - 1), Frames(a, base, rest[n..], idx + 1);
      assert |first| == EndOf(|rest| - n, j - 1) && first <= all by { FirstFramesEnd(a, base, rest[n..], idx + 1, j - 1); }
      EndStep(a, base, rest, idx, j, first, all);
    }
  }

  lemma {:induction false} FirstChunksAre(rest: Bytes, j: nat)
    ensures FirstChunks(rest, j) == rest[..Least(j * 0x10_0000, |rest|)]
    decreases j
  {
    if j > 0 && rest != [] {
      var n := FirstChunk(|rest|);
      var tail, k := rest[n..], Least((j - 1) * 0x10_0000, |rest| - n);
      assert FirstChunks(tail, j - 1) == tail[..k] by { FirstChunksAre(tail, j - 1); }
      assert j * 0x10_0000 == (j - 1) * 0x10_0000 + 0x10_0000;
      assert n + k == Least(j * 0x10_0000, |rest|);
      assert rest[..n] + tail[..k] == rest[..n + k];
    }
  }

  /** A valid header, and after it the file's own bytes up to the end of its j-th chunk. */
  ghost predicate CutAfter(a: Aead, base: Bytes, plain: Bytes, src: Bytes, j: nat)
    requires |base| >= NONCE_SIZE
  {
    && j <= Slicing.ChunkCount(|plain|, CHUNK_SIZE) && |src| == |HEADER| + EndOf(|plain|, j) <= |Encrypted(a, base, plain)|
    && src[..5] == HEADER[..5]
    && src[|HEADER|..] == Encrypted(a, base, plain)[|HEADER|..|src|]
  }

  lemma {:induction false} AfterHead(head: Bytes, first: Bytes, all: Bytes)
    requires first <= all
    ensures |head| + |first| <= |head + all| && (head + all)[|head|..|head| + |first|] == first
  {
  }

  lemma {:induction false} CutAfterIs(a: Aead, base: Bytes, plain: Bytes, src: Bytes, j: nat)
    requires |base| >= NONCE_SIZE && SealsInLength(a) && j <= Slicing.ChunkCount(|plain|, CHUNK_SIZE)
    ensures CutAfter(a, base, plain, src, j) <==>
      |src| >= |HEADER| && src[..5] == HEADER[..5] && src[|HEADER|..] == FirstFrames(a, base, plain, 0, j)
  {
    var first, all, whole := FirstFrames(a, base, plain, 0, j), Frames(a, base, plain, 0), Encrypted(a, base, plain);
    assert |first| == EndOf(|plain|, j) && first <= all by { FirstFramesEnd(a, base, plain, 0, j); }
    assert |HEADER| + |first| <= |whole| && whole[|HEADER|..|HEADER| + |first|] == first by { AfterHead(HEADER, first, all); }
    SameTail(src, |HEADER|, first, whole);
  }

  lemma {:induction false} SameTail(src: Bytes, h: nat, first: Bytes, whole: Bytes)
    requires h + |first| <= |whole| && whole[h..h + |first|] == first
    ensures |src| == h + |first| && src[h..] == whole[h..|src|] <==> |src| >= h && src[h..] == first
  {
  }

  lemma {:induction false} OkIsCut(a: Aead, base: Bytes, plain: Bytes, src: Bytes) returns (j: nat)
    requires |base| >= NONCE_SIZE && SealsInLength(a) && Ideal(a, base, plain) && |src| < Power(256, 8) && Decrypted(a, base, src).ok
    ensures CutAfter(a, base, plain, src, j)
  {
    assert src[..5] == HEADER[..5] by { assert src[..5] == src[..4] + [src[4]] && HEADER[..5] == HEADER[..4] + [1]; }
    j := AcceptedAreFirst(a, base, plain, src[9..], 0);
    CutAfterIs(a, base, plain, src, j);
  }

  lemma {:induction false} CutIsOk(a: Aead, base: Bytes, plain: Bytes, src: Bytes, j: nat)
    requires |base| >= NONCE_SIZE && SealsInLength(a) && Ideal(a, base, plain) && |src| < Power(256, 8) && CutAfter(a, base, plain, src, j)
    ensures Decrypted(a, base, src) == Outcome(plain[..Least(j * 0x10_0000, |plain|)], true)
  {
    CutAfterIs(a, base, plain, src, j);
    assert src[..4] == HEADER[..4] && src[4] == 1 by { assert src[..4] == src[..5][..4] && src[4] == src[..5][4]; }
    var body, first := src[9..], FirstFrames(a, base, plain, 0, j);
    assert j <= EndOf(|plain|, j);
    assert DecryptFrames(a, base, first, 0) == Outcome(FirstChunks(plain, j), true) by {
      IdealOpensFrom(a, base, plain, plain, 0, j);
      FirstAreAccepted(a, base, plain, 0, j);
    }
    FirstChunksAre(plain, j);
  }

  /**
   * Which bytes decrypt without an error: exactly those with a valid header
   * that go on as the file itself does, up to the end of one of its chunks.  Then
   * these chunks are what is written.  One altered, moved, repeated or added
   * byte is an error.
   */
  lemma {:induction false} AcceptedIff(a: Aead, base: Bytes, plain: Bytes, src: Bytes)
    requires |base| >= NONCE_SIZE && SealsInLength(a) && Ideal(a, base, plain) && |src| < Power(256, 8)
    ensures Decrypted(a, base, src).ok <==> exists j: nat :: CutAfter(a, base, plain, src, j)
    ensures forall j: nat | CutAfter(a, base, plain, src, j) :: Decrypted(a, base, src).written == plain[..Least(j * 0x10_0000, |plain|)]
  {
    if Decrypted(a, base, src).ok { var j := OkIsCut(a, base, plain, src); }
    forall j: nat | CutAfter(a, base, plain, src, j)
      ensures Decrypted(a, base, src) == Outcome(plain[..Least(j * 0x10_0000, |plain|)], true)
    {
      CutIsOk(a, base, plain, src, j);
    }
  }

  // ----------------------------------------------------------------- operations

  datatype ReadStatus = Full | Eof | UnexpectedEof

  /** An io.Reader over known bytes, read with io.ReadFull. */
  class Source {
    const data: Bytes
    var pos: nat

    constructor (data: Bytes)
      ensures this.data == data && pos == 0
    {
      this.data, pos := data, 0;
    }

    method ReadFull(k: nat) returns (buffer: Bytes, status: ReadStatus)
      requires pos <= |data| && k > 0
      modifies this
      ensures pos == Least(old(pos) + k, |data|) && old(pos) <= pos && buffer == data[old(pos)..pos]
      ensures status == if |buffer| == k then Full else if |buffer| == 0 then Eof else UnexpectedEof
    {
      var end := Least(pos + k, |data|);
      buffer := data[pos..end];
      pos := end;
      status := if |buffer| == k then Full else if |buffer| == 0 then Eof else UnexpectedEof;
    }
  }

  datatype EncryptResult = BadKey | BadNonce | Written(file: Bytes, hashed: Bytes, plaintextSize: nat, ciphertextSize: nat)

  /** One pass of the write loop: the next chunk's length and its sealed bytes, or nothing at the end of the file. */
  method SealNext(src: Source, a: Aead, base: Bytes, chunkIdx: nat) returns (plain: Bytes, status: ReadStatus, lenBuf: Bytes, cipherChunk: Bytes)
    requires src.pos <= |src.data| && |base| >= NONCE_SIZE && Lawful(a)
    modifies src
    ensures src.pos == old(src.pos) + |plain| <= |src.data|
    ensures plain == [] <==> old(src.pos) == |src.data|
    ensures plain == [] ==> status == Eof
    ensures plain != [] ==>
      && status != Eof && |lenBuf| == 4 && |cipherChunk| == |plain| + 16
      && Frames(a, base, src.data[old(src.pos)..], chunkIdx) == lenBuf + cipherChunk + Frames(a, base, src.data[src.pos..], chunkIdx + 1)
  {
    ghost var rest := src.data[src.pos..];
    plain, status := src.ReadFull(CHUNK_SIZE);
    if |plain| == 0 && status == Eof {
      return plain, status, [], [];
    }
    assert plain == rest[..FirstChunk(|rest|)] && src.data[src.pos..] == rest[FirstChunk(|rest|)..];
    var nonce := DeriveChunkNonce(base, chunkIdx);
    cipherChunk := a.seal(nonce, plain);
    lenBuf := PutUint32(|plain|);
  }

  lemma {:induction false} Appended(dst: Bytes, x: Bytes, y: Bytes, z: Bytes)
    ensures dst + (x + y + z) == dst + x + y + z && |dst + x + y| == |dst| + |x| + |y|
  {
  }

  method EncryptToFile(src: Source, a: Aead, keyLength: nat, base: Bytes) returns (r: EncryptResult)
    requires src.pos == 0 && Lawful(a)
    modifies src
    ensures keyLength != 32 ==> r == BadKey
    ensures keyLength == 32 && |base| < NONCE_SIZE ==> r == BadNonce
    ensures keyLength == 32 && |base| >= NONCE_SIZE ==>
      r == Written(Encrypted(a, base, src.data), Encrypted(a, base, src.data), |src.data|, 9 + |src.data| + 20 * Slicing.ChunkCount(|src.data|, CHUNK_SIZE))
  {
    if keyLength != 32 { return BadKey; }
    if |base| < NONCE_SIZE { return BadNonce; }
    var dst, hashed := HEADER, HEADER;
    var plaintextSize, ciphertextSize, chunkIdx := 0, 9, 0;
    assert src.data[0..] == src.data;
    var more := true;
    while more
      invariant src.pos <= |src.data| && plaintextSize == src.pos && ciphertextSize == |dst| && hashed == dst
      invariant dst + Frames(a, base, src.data[src.pos..], chunkIdx) == Encrypted(a, base, src.data)
      invariant !more ==> src.pos == |src.data|
      decreases if more then 1 + |src.data| - src.pos else 0
    {
      ghost var here := dst;
      var plain, status, lenBuf, cipherChunk := SealNext(src, a, base, chunkIdx);
      if |plain| == 0 && status == Eof {
        break;
      }
      Appended(here, lenBuf, cipherChunk, Frames(a, base, src.data[src.pos..], chunkIdx + 1));
      dst := dst + lenBuf + cipherChunk;
      hashed := hashed + lenBuf + cipherChunk;
      ciphertextSize := ciphertextSize + (4 + |cipherChunk|);
      plaintextSize := plaintextSize + |plain|;
      chunkIdx := chunkIdx + 1;
      more := status != Eof;
    }
    assert Frames(a, base, src.data[src.pos..], chunkIdx) == [];
    CiphertextSize(a, base, src.data);
    r := Written(dst, hashed, plaintextSize, ciphertextSize);
  }

  datatype FrameRead = EndOfFile | Broken | Chunk(plain: Bytes)

  /** One pass of the read loop: a length, that many bytes, and Open. */
  method DecryptNext(src: Source, a: Aead, base: Bytes, chunkIdx: nat) returns (r: FrameRead)
    requires src.pos <= |src.data| && |base| >= NONCE_SIZE
    modifies src
    ensures old(src.pos) <= src.pos <= |src.data|
    ensures var before := DecryptFrames(a, base, src.data[old(src.pos)..], chunkIdx);
      match r
      case EndOfFile => before == Outcome([], true)
      case Broken => before == Outcome([], false)
      case Chunk(plain) =>
        && old(src.pos) < src.pos
        && var after := DecryptFrames(a, base, src.data[src.pos..], chunkIdx + 1);
           before == Outcome(plain + after.written, after.ok)
  {
    ghost var rest := src.data[src.pos..];
    var lenBuf, lenStatus := src.ReadFull(4);
    if lenStatus != Full {
      assert lenStatus == Eof <==> rest == [];
      return if lenStatus == Eof then EndOfFile else Broken;
    }
    assert lenBuf == rest[..4];
    var cipherLen := Uint32(lenBuf) + OVERHEAD;
    var cipher, cipherStatus := src.ReadFull(cipherLen);
    if cipherStatus != Full { return Broken; }
    assert cipher == rest[4..4 + cipherLen] && src.data[src.pos..] == rest[4 + cipherLen..];
    var nonce := DeriveChunkNonce(base, chunkIdx);
    match a.open(nonce, cipher)
    case None => r := Broken;
    case Some(plain) => r := Chunk(plain);
  }

  /** The read loop after the header. */
  method DecryptChunks(src: Source, a: Aead, base: Bytes) returns (r: Outcome)
    requires src.pos <= |src.data| && |base| >= NONCE_SIZE
    modifies src
    ensures r == DecryptFrames(a, base, src.data[old(src.pos)..], 0)
  {
    ghost var whole := DecryptFrames(a, base, src.data[src.pos..], 0);
    var written: Bytes, chunkIdx := [], 0;
    while true
      invariant src.pos <= |src.data|
      invariant var rest := DecryptFrames(a, base, src.data[src.pos..], chunkIdx);
        whole == Outcome(written + rest.written, rest.ok)
      decreases |src.data| - src.pos
    {
      var frame := DecryptNext(src, a, base, chunkIdx);
      match frame
      case EndOfFile => return Outcome(written, true);
      case Broken => return Outcome(written, false);
      case Chunk(plain) =>
        ghost var after := DecryptFrames(a, base, src.data[src.pos..], chunkIdx + 1);
        assert written + (plain + after.written) == written + plain + after.written;
        written := written + plain;
        chunkIdx := chunkIdx + 1;
    }
  }

  method DecryptToWriter(src: Source, a: Aead, keyLength: nat, base: Bytes) returns (r: Outcome)
    requires src.pos == 0
    modifies src
    ensures keyLength != 32 || |base| < NONCE_SIZE ==> r == Outcome([], false)
    ensures keyLength == 32 && |base| >= NONCE_SIZE ==> r == Decrypted(a, base, src.data)
  {
    if keyLength != 32 || |base| < NONCE_SIZE { return Outcome([], false); }
    var header, headerStatus := src.ReadFull(9);
    if headerStatus != Full { return Outcome([], false); }
    assert header[..4] == src.data[..4];
    if header[..4] != HEADER[..4] || header[4] != 1 { return Outcome([], false); }
    r := DecryptChunks(src, a, base);
  }
}
