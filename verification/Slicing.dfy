/**
 * Cutting bytes into chunks and joining them again, as the upload client
 * (frontend/src/workers/uploadWorker.js) and the teleport channel
 * (frontend/src/device/teleport.js) do.
 */
module Slicing {

  type Bytes = seq<bv8>

  function ChunkCount(size: nat, chunkSize: nat): nat
    requires chunkSize > 0
  {
    (size + chunkSize - 1) / chunkSize
  }

  function Slice(file: Bytes, chunkSize: nat, i: nat): Bytes
    requires chunkSize > 0
  {
    var lo := i * chunkSize;
    var hi := if lo + chunkSize <= |file| then lo + chunkSize else |file|;
    if lo <= hi then file[lo..hi] else []
  }

  ghost function Concat(parts: seq<Bytes>): Bytes {
    if parts == [] then [] else Concat(parts[..|parts| - 1]) + parts[|parts| - 1]
  }

  /** The first n slices, joined. */
  ghost function Joined(file: Bytes, chunkSize: nat, n: nat): Bytes
    requires chunkSize > 0
  {
    if n == 0 then [] else Joined(file, chunkSize, n - 1) + Slice(file, chunkSize, n - 1)
  }

  /** Where the first n slices end. */
  function EndOf(size: nat, chunkSize: nat, n: nat): nat {
    if n * chunkSize <= size then n * chunkSize else size
  }

  lemma {:induction false} NextMultiple(n: nat, c: nat)
    requires n > 0
    ensures n * c == (n - 1) * c + c
  {
  }

  lemma {:induction false} MultiplesGrow(m: nat, n: nat, c: nat)
    requires m <= n
    ensures m * c <= n * c
  {
  }

  lemma {:induction false} PrefixAndSlice(file: Bytes, lo: nat, c: nat)
    ensures var a := if lo <= |file| then lo else |file|; var b := if lo + c <= |file| then lo + c else |file|;
      file[..a] + (if lo <= b then file[lo..b] else []) == file[..b]
  {
  }

  lemma {:induction false} JoinedNext(file: Bytes, chunkSize: nat, n: nat, lo: nat)
    requires chunkSize > 0 && lo == n * chunkSize && Joined(file, chunkSize, n) == file[..if lo <= |file| then lo else |file|]
    ensures Joined(file, chunkSize, n + 1) == file[..if lo + chunkSize <= |file| then lo + chunkSize else |file|]
  {
    PrefixAndSlice(file, lo, chunkSize);
  }

  lemma {:induction false} JoinedIsPrefix(file: Bytes, chunkSize: nat, n: nat)
    requires chunkSize > 0
    ensures Joined(file, chunkSize, n) == file[..EndOf(|file|, chunkSize, n)]
  {
    if n > 0 {
      JoinedIsPrefix(file, chunkSize, n - 1);
      JoinedNext(file, chunkSize, n - 1, (n - 1) * chunkSize);
      NextMultiple(n, chunkSize);
    }
  }

  lemma {:induction false} QuotientCovers(m: nat, c: nat)
    requires c > 0
    ensures m / c * c <= m < m / c * c + c
  {
  }

  /** The chunks reach the end of the file, and each begins inside it. */
  lemma {:induction false} CountCovers(size: nat, chunkSize: nat)
    requires chunkSize > 0
    ensures var n := ChunkCount(size, chunkSize); size <= n * chunkSize < size + chunkSize
  {
    QuotientCovers(size + chunkSize - 1, chunkSize);
  }

  lemma {:induction false} StartInside(size: nat, chunkSize: nat, i: nat)
    requires chunkSize > 0 && i < ChunkCount(size, chunkSize)
    ensures i * chunkSize < size
  {
    var n := ChunkCount(size, chunkSize);
    CountCovers(size, chunkSize);
    MultiplesGrow(i + 1, n, chunkSize);
    NextMultiple(i + 1, chunkSize);
  }

  /** Every slice but the last is a full chunk, the last is what is left, and after it there is nothing. */
  lemma {:induction false} SliceSizes(file: Bytes, chunkSize: nat, i: nat)
    requires chunkSize > 0
    ensures i + 1 < ChunkCount(|file|, chunkSize) ==> |Slice(file, chunkSize, i)| == chunkSize
    ensures i + 1 == ChunkCount(|file|, chunkSize) ==> 0 < |Slice(file, chunkSize, i)| <= chunkSize
    ensures i >= ChunkCount(|file|, chunkSize) ==> Slice(file, chunkSize, i) == []
  {
    var n := ChunkCount(|file|, chunkSize);
    CountCovers(|file|, chunkSize);
    NextMultiple(i + 1, chunkSize);
    if i >= n {
      MultiplesGrow(n, i, chunkSize);
    } else {
      StartInside(|file|, chunkSize, i);
    }
    if i + 1 < n { StartInside(|file|, chunkSize, i + 1); }
  }

  /** Slicing loses nothing: the slices in order are the file. */
  lemma {:induction false} SlicesRebuildFile(file: Bytes, chunkSize: nat)
    requires chunkSize > 0
    ensures Joined(file, chunkSize, ChunkCount(|file|, chunkSize)) == file
  {
    CountCovers(|file|, chunkSize);
    JoinedIsPrefix(file, chunkSize, ChunkCount(|file|, chunkSize));
    assert file[..|file|] == file;
  }
}
