/**
 The fragmenter: `split_data(data, chunk_size)` cuts a byte string into the
 consecutive slices `data[i:i+chunk_size]` for `i` in `range(0, len(data), chunk_size)`.
 */
module Fragmenter {
  import opened Datagram

  /** What `split_data` returns: the list of chunks, or the ValueError that
      `range` raises for a step of zero. */
  datatype SplitResult = Chunks(chunks: seq<seq<byte>>) | ValueError

  function Min(a: int, b: int): int { if a <= b then a else b }

  /** Chunks of `data` of at most `size` bytes, one per start offset `i`, `i + size`,
      `i + 2 * size`, ... below `|data|` (a positive step of `range`). A slice that
      runs past the end is cut at the end, as Python slicing does. */
  function SplitFrom(data: seq<byte>, size: nat, i: nat): (r: seq<seq<byte>>)
    requires size > 0
    ensures forall k :: 0 <= k < |r| ==> 0 < |r[k]| <= size
    ensures forall k :: 0 <= k < |r| - 1 ==> |r[k]| == size
    ensures r == [] <==> i >= |data|
    decreases |data| - i
  {
    if i >= |data| then []
    else [data[i..Min(i + size, |data|)]] + SplitFrom(data, size, i + size)
  }

  /** The chunks of the whole of `data`. */
  function Split(data: seq<byte>, size: nat): seq<seq<byte>>
    requires size > 0
  {
    SplitFrom(data, size, 0)
  }

  /** `split_data(data, chunk_size)` for every integer chunk size: a zero step
      raises, a negative step gives an empty range and so an empty list, and a
      positive step gives chunks that rebuild `data`, none empty, none longer
      than `chunk_size`, all but the last exactly `chunk_size` long. */
  function SplitData(data: seq<byte>, chunkSize: int): (r: SplitResult)
    ensures r.ValueError? <==> chunkSize == 0
    ensures chunkSize < 0 ==> r == Chunks([])
    ensures chunkSize > 0 ==> r.Chunks? && Flatten(r.chunks) == data
    ensures chunkSize > 0 ==> |r.chunks| == (|data| + chunkSize - 1) / chunkSize
    ensures chunkSize > 0 ==> forall k :: 0 <= k < |r.chunks| ==> 0 < |r.chunks[k]| <= chunkSize
    ensures chunkSize > 0 ==> forall k :: 0 <= k < |r.chunks| - 1 ==> |r.chunks[k]| == chunkSize
  {
    if chunkSize == 0 then ValueError
    else if chunkSize < 0 then Chunks([])
    else
      SplitConcat(data, chunkSize);
      SplitCount(data, chunkSize);
      Chunks(Split(data, chunkSize))
  }

  /** Concatenating the chunks from offset `i` in list order gives back `data[i..]`. */
  lemma {:induction false} SplitFromConcat(data: seq<byte>, size: nat, i: nat)
    requires size > 0 && i <= |data|
    ensures Flatten(SplitFrom(data, size, i)) == data[i..]
    decreases |data| - i
  {
    if i < |data| {
      var j := Min(i + size, |data|);
      var rest := SplitFrom(data, size, i + size);
      assert SplitFrom(data, size, i) == [data[i..j]] + rest;
      if i + size <= |data| {
        SplitFromConcat(data, size, i + size);
        assert Flatten(rest) == data[j..];
      } else {
        assert rest == [];
        assert j == |data|;
      }
      assert data[i..] == data[i..j] + data[j..];
    }
  }

  /** Concatenating `Split(data, size)` in list order reproduces `data` exactly. */
  lemma SplitConcat(data: seq<byte>, size: nat)
    requires size > 0
    ensures Flatten(Split(data, size)) == data
  {
    SplitFromConcat(data, size, 0);
  }

  /** Division fact: a number between `q * d` and `q * d + d` has quotient `q`. */
  lemma DivBetween(x: int, d: int, q: int)
    requires d > 0 && q * d <= x < q * d + d
    ensures x / d == q
  {
    var p := x / d;
    assert p * d <= x < p * d + d;
    if p > q {
      MulAtLeast(p - q, d);
    } else if p < q {
      MulAtLeast(q - p, d);
    }
  }

  lemma {:induction false} MulAtLeast(a: int, d: int)
    requires a >= 1 && d > 0
    ensures a * d >= d
    decreases a
  {
    if a > 1 {
      MulAtLeast(a - 1, d);
      assert a * d == (a - 1) * d + d;
    }
  }

  /** Adding the divisor adds one to the quotient. */
  lemma DivStep(x: int, d: int)
    requires d > 0 && x >= 0
    ensures (x + d) / d == x / d + 1
  {
    var q := x / d;
    assert q * d <= x < q * d + d;
    assert (q + 1) * d == q * d + d;
    DivBetween(x + d, d, q + 1);
  }

  /** The number of chunks from offset `i` is the ceiling of `(|data| - i) / size`. */
  lemma {:induction false} SplitFromCount(data: seq<byte>, size: nat, i: nat)
    requires size > 0 && i <= |data|
    ensures |SplitFrom(data, size, i)| == (|data| - i + size - 1) / size
    decreases |data| - i
  {
    var m := |data| - i;
    if i == |data| {
      DivBetween(size - 1, size, 0);
    } else if i + size <= |data| {
      SplitFromCount(data, size, i + size);
      assert |SplitFrom(data, size, i + size)| == (m - 1) / size;
      DivStep(m - 1, size);
    } else {
      assert SplitFrom(data, size, i + size) == [];
      DivBetween(m + size - 1, size, 1);
    }
  }

  /** The number of chunks is `ceil(|data| / size)`; empty data gives no chunk. */
  lemma SplitCount(data: seq<byte>, size: nat)
    requires size > 0
    ensures |Split(data, size)| == (|data| + size - 1) / size
    ensures |data| == 0 <==> Split(data, size) == []
  {
    SplitFromCount(data, size, 0);
  }

  /** Chunk `k` from offset `i` is the slice starting `k` steps after `i`. */
  lemma {:induction false} SplitFromAt(data: seq<byte>, size: nat, i: nat, k: nat)
    requires size > 0 && k < |SplitFrom(data, size, i)|
    ensures i + k * size < |data|
    ensures SplitFrom(data, size, i)[k] == data[i + k * size..Min(i + k * size + size, |data|)]
    decreases k
  {
    if k > 0 {
      SplitFromAt(data, size, i + size, k - 1);
      assert i + size + (k - 1) * size == i + k * size;
    }
  }

  /** Element `k` of `Split(data, size)` is `data[k*size : k*size+size]`, the element
      the list comprehension builds for the `k`-th value of the range. */
  lemma SplitAt(data: seq<byte>, size: nat, k: nat)
    requires size > 0 && k < |Split(data, size)|
    ensures k * size < |data|
    ensures Split(data, size)[k] == data[k * size..Min(k * size + size, |data|)]
  {
    SplitFromAt(data, size, 0, k);
  }

  /** A list of chunks is a fragmentation of `data` by `size` when its chunks
      rebuild `data`, none is empty, none is longer than `size`, and all but the
      last are exactly `size` long. */
  ghost predicate IsFragmentation(data: seq<byte>, size: nat, chunks: seq<seq<byte>>)
  {
    && Flatten(chunks) == data
    && (forall k :: 0 <= k < |chunks| ==> 0 < |chunks[k]| <= size)
    && (forall k :: 0 <= k < |chunks| - 1 ==> |chunks[k]| == size)
  }

  /** `Split` is a fragmentation, and it is the only one: any list of chunks
      with those properties is exactly `Split(data, size)`. */
  lemma SplitIsTheFragmentation(data: seq<byte>, size: nat, chunks: seq<seq<byte>>)
    requires size > 0
    ensures IsFragmentation(data, size, Split(data, size))
    ensures IsFragmentation(data, size, chunks) ==> chunks == Split(data, size)
  {
    SplitConcat(data, size);
    if IsFragmentation(data, size, chunks) {
      FragmentationUnique(data, size, chunks, 0);
    }
  }

  lemma {:induction false} FragmentationUnique(data: seq<byte>, size: nat, chunks: seq<seq<byte>>, i: nat)
    requires size > 0 && i <= |data|
    requires IsFragmentation(data[i..], size, chunks)
    ensures chunks == SplitFrom(data, size, i)
    decreases |data| - i
  {
    if chunks == [] {
      assert data[i..] == [];
    } else {
      var c := chunks[0];
      var rest := chunks[1..];
      assert Flatten(chunks) == c + Flatten(rest);
      assert data[i..] == c + Flatten(rest);
      var j := i + |c|;
      if rest == [] {
        assert Flatten(rest) == [];
        assert |c| == |data| - i && |c| <= size;
        assert Min(i + size, |data|) == |data|;
        assert c == data[i..];
        assert SplitFrom(data, size, i + size) == [];
        assert SplitFrom(data, size, i) == [data[i..|data|]];
        assert chunks == [c];
        assert data[i..] == data[i..|data|];
        assert chunks == SplitFrom(data, size, i);
      } else {
        assert |c| == size;
        assert c == data[i..j];
        assert Flatten(rest) == data[j..];
        assert 0 < |rest[0]| && |Flatten(rest)| > 0 by {
          assert Flatten(rest) == rest[0] + Flatten(rest[1..]);
        }
        assert j < |data|;
        assert IsFragmentation(data[j..], size, rest) by {
          forall k | 0 <= k < |rest| ensures 0 < |rest[k]| <= size { assert rest[k] == chunks[k + 1]; }
          forall k | 0 <= k < |rest| - 1 ensures |rest[k]| == size { assert rest[k] == chunks[k + 1]; }
        }
        FragmentationUnique(data, size, rest, j);
        assert SplitFrom(data, size, i) == [data[i..j]] + SplitFrom(data, size, j);
        assert chunks == [c] + rest;
      }
    }
  }
}
