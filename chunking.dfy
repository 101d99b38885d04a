/**
 * Splitting a payload into the slices that are sent one exec round trip each.
 * `Chunks` is the reference split, front to back; the write loop in
 * FileSystem computes the same slices with Go's count-plus-remainder indexing.
 */
module Chunking {

  /** Consecutive slices of `size` elements; only the last may be shorter, none is empty. */
  function Chunks<T>(data: seq<T>, size: int): (cs: seq<seq<T>>)
    requires size >= 1
    ensures forall i :: 0 <= i < |cs| ==> 1 <= |cs[i]| <= size
    decreases |data|
  {
    if |data| == 0 then []
    else if |data| <= size then [data]
    else [data[..size]] + Chunks(data[size..], size)
  }

  /** The slices joined back together, in order. */
  function Flatten<T>(cs: seq<seq<T>>): (flat: seq<T>)
  {
    if cs == [] then [] else Flatten(cs[..|cs| - 1]) + cs[|cs| - 1]
  }

  lemma {:induction false} FlattenCons<T>(c: seq<T>, cs: seq<seq<T>>)
    ensures Flatten([c] + cs) == c + Flatten(cs)
    decreases |cs|
  {
    if cs == [] {
      assert ([c] + cs)[..0] == [];
    } else {
      var n := |cs|;
      var whole := [c] + cs;
      assert whole[..n] == [c] + cs[..n - 1];
      assert whole[n] == cs[n - 1];
      FlattenCons(c, cs[..n - 1]);
      assert Flatten(whole) == c + Flatten(cs[..n - 1]) + cs[n - 1];
    }
  }

  /** Concatenating the slices in order reproduces the payload exactly. */
  lemma {:induction false} FlattenChunks<T>(data: seq<T>, size: int)
    requires size >= 1
    ensures Flatten(Chunks(data, size)) == data
    decreases |data|
  {
    if |data| == 0 {
    } else if |data| <= size {
      FlattenCons(data, []);
    } else {
      FlattenChunks(data[size..], size);
      FlattenCons(data[..size], Chunks(data[size..], size));
      assert data[..size] + data[size..] == data;
    }
  }

  lemma {:induction false} MulAtLeast(a: int, b: int)
    requires a >= 1 && b >= 1
    ensures a * b >= b
    decreases a
  {
    if a > 1 {
      MulAtLeast(a - 1, b);
      assert a * b == (a - 1) * b + b;
    }
  }

  /** Integer division is determined by quotient and remainder. */
  lemma DivUnique(n: int, size: int, q: int, r: int)
    requires size >= 1 && n == q * size + r && 0 <= r < size
    ensures n / size == q && n % size == r
  {
    var q', r' := n / size, n % size;
    assert n == q' * size + r';
    if q > q' {
      MulAtLeast(q - q', size);
    } else if q < q' {
      MulAtLeast(q' - q, size);
    }
  }

  lemma DivStep(n: int, size: int)
    requires n >= size >= 1
    ensures (n - size) / size == n / size - 1
    ensures (n - size) % size == n % size
  {
    var q, r := n / size, n % size;
    assert n - size == (q - 1) * size + r;
    DivUnique(n - size, size, q - 1, r);
  }

  /**
   * There are `|data| / size` full slices and one more exactly when the
   * remainder is not zero, so ceil(|data| / size) in all; no slices for empty data.
   */
  lemma {:induction false} ChunkCount<T>(data: seq<T>, size: int)
    requires size >= 1
    ensures |Chunks(data, size)| == |data| / size + (if |data| % size != 0 then 1 else 0)
    ensures |Chunks(data, size)| == (|data| + size - 1) / size
    decreases |data|
  {
    if |data| > size {
      ChunkCount(data[size..], size);
      DivStep(|data|, size);
      DivStep(|data| + size - 1, size);
    }
  }

  /** The i-th full slice is `data[i * size .. (i + 1) * size]`. */
  lemma {:induction false} FullChunkAt<T>(data: seq<T>, size: int, i: int)
    requires size >= 1 && 0 <= i < |data| / size
    ensures 0 <= i * size <= (i + 1) * size <= |data|
    ensures i < |Chunks(data, size)| && Chunks(data, size)[i] == data[i * size .. (i + 1) * size]
    decreases |data|
  {
    if i > 0 {
      DivStep(|data|, size);
      FullChunkAt(data[size..], size, i - 1);
      assert size + (i - 1) * size == i * size && size + i * size == (i + 1) * size;
      assert data[size..][(i - 1) * size .. i * size] == data[i * size .. (i + 1) * size];
    } else if |data| == size {
    } else {
      DivStep(|data|, size);
    }
  }

  /** When the size does not divide the length, the last slice is the remainder `data[(|data| / size) * size ..]`. */
  lemma {:induction false} RemainderChunk<T>(data: seq<T>, size: int)
    requires size >= 1 && |data| % size != 0
    ensures |Chunks(data, size)| == |data| / size + 1
    ensures 0 <= (|data| / size) * size <= |data|
    ensures Chunks(data, size)[|data| / size] == data[(|data| / size) * size ..]
    ensures |Chunks(data, size)[|data| / size]| == |data| % size
    decreases |data|
  {
    ChunkCount(data, size);
    var q := |data| / size;
    assert |data| == q * size + |data| % size;
    if |data| > size {
      DivStep(|data|, size);
      RemainderChunk(data[size..], size);
      assert size + (q - 1) * size == q * size;
      assert data[size..][(q - 1) * size ..] == data[q * size ..];
    } else {
      DivUnique(|data|, size, 0, |data|);
    }
  }
}
