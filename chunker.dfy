/**
 * The reply chunker `splitStringIntoChunks(str, chunkSize)` as the bot has
 * it, and the fixed-stride chunker it evidently means to be.
 *
 * The source's loop walks a character offset `i` = 0, c, 2c, ... but ends
 * each chunk at `chunkSize * (i + 1)`, so chunk k is
 * `str[k*c .. min(|str|, c*(k*c + 1))]`: later chunks run on past their
 * stride and repeat text. The two agree whenever `|str| <= 2*c`.
 */
module Chunker {
  import opened Strings

  function Min(a: int, b: int): int {
    if a <= b then a else b
  }

  function Clamp(x: int, n: nat): nat {
    if x < 0 then 0 else if x > n then n else x
  }

  /** `String.prototype.substring`: both ends are clamped to the string and swapped if reversed. */
  function Substring(s: string, start: int, end: int): (r: string)
    ensures 0 <= start <= end <= |s| ==> r == s[start..end]
    ensures 0 <= end <= start <= |s| ==> r == s[end..start]
    ensures 0 <= start <= |s| <= end ==> r == s[start..]
    ensures start <= 0 && end <= 0 ==> r == ""
    ensures |r| <= |s|
  {
    var a := Clamp(start, |s|);
    var b := Clamp(end, |s|);
    if a <= b then s[a..b] else s[b..a]
  }

  /** ceil(n / c): how many offsets 0, c, 2c, ... lie below n. */
  function NumChunks(n: nat, c: nat): nat
    requires c >= 1
  {
    (n + c - 1) / c
  }

  lemma MulMono(a: nat, b: nat, c: nat)
    requires a <= b
    ensures a * c <= b * c
  {
    assert b * c == a * c + (b - a) * c;
  }

  lemma MulAtLeast(c: nat, x: nat)
    requires c >= 1
    ensures c * x >= x
  {
    assert c * x == (c - 1) * x + x;
  }

  lemma MulSucc(n: nat, c: nat)
    ensures (n + 1) * c == n * c + c
  {
  }

  lemma DivMod(t: nat, c: nat)
    requires c >= 1
    ensures t == (t / c) * c + t % c && 0 <= t % c < c
  {
  }

  /** The k-th offset k*c lies inside a string of length n exactly when k < ceil(n / c). */
  lemma NumChunksBounds(n: nat, c: nat, k: nat)
    requires c >= 1
    ensures k < NumChunks(n, c) <==> k * c < n
  {
    var q := NumChunks(n, c);
    DivMod(n + c - 1, c);
    MulSucc(k, c);
    if k < q {
      MulMono(k + 1, q, c);
    } else {
      MulMono(q, k, c);
    }
  }

  /** The chunk the source's loop pushes on its k-th pass, at offset i = k*c. */
  function ChunkAt(s: string, c: nat, k: nat): string {
    Substring(s, k * c, c * (k * c + 1))
  }

  /** The chunks the source's loop pushes, in closed form. */
  function AsWrittenChunks(s: string, c: nat): seq<string>
    requires c >= 1
  {
    seq(NumChunks(|s|, c), k requires 0 <= k => ChunkAt(s, c, k))
  }

  /** `splitStringIntoChunks` as written: the loop over the character offset `i`. */
  method SplitIntoChunks(str: string, chunkSize: nat) returns (chunks: seq<string>)
    requires chunkSize >= 1
    ensures chunks == AsWrittenChunks(str, chunkSize)
  {
    chunks := [];
    var i := 0;
    while i < |str|
      invariant i == |chunks| * chunkSize
      invariant i == 0 || i - chunkSize < |str|
      invariant forall k :: 0 <= k < |chunks| ==> chunks[k] == ChunkAt(str, chunkSize, k)
      decreases |str| - i
    {
      var chunk := Substring(str, i, chunkSize * (i + 1));
      assert chunk == ChunkAt(str, chunkSize, |chunks|);
      MulSucc(|chunks|, chunkSize);
      chunks := chunks + [chunk];
      i := i + chunkSize;
    }
    var n := |chunks|;
    NumChunksBounds(|str|, chunkSize, n);
    if n > 0 {
      MulSucc(n - 1, chunkSize);
      NumChunksBounds(|str|, chunkSize, n - 1);
    }
    assert n == NumChunks(|str|, chunkSize);
  }

  /** There are ceil(|s| / c) chunks, none at all for the empty string. */
  lemma AsWrittenChunkCount(s: string, c: nat)
    requires c >= 1
    ensures |AsWrittenChunks(s, c)| * c >= |s|
    ensures |AsWrittenChunks(s, c)| == 0 || (|AsWrittenChunks(s, c)| - 1) * c < |s|
    ensures AsWrittenChunks(s, c) == [] <==> |s| == 0
  {
    var n := NumChunks(|s|, c);
    NumChunksBounds(|s|, c, n);
    NumChunksBounds(|s|, c, 0);
    if n > 0 {
      NumChunksBounds(|s|, c, n - 1);
    }
  }

  /** Chunk k starts at offset k*c and ends at min(|s|, c*(k*c + 1)). */
  lemma AsWrittenChunkSpan(s: string, c: nat, k: nat)
    requires c >= 1 && k < NumChunks(|s|, c)
    ensures k * c < |s| && k * c <= c * (k * c + 1)
    ensures AsWrittenChunks(s, c)[k] == s[k * c .. Min(|s|, c * (k * c + 1))]
  {
    NumChunksBounds(|s|, c, k);
    var a := k * c;
    var b := c * (a + 1);
    MulAtLeast(c, a + 1);
    assert Clamp(a, |s|) == a;
    assert Clamp(b, |s|) == Min(|s|, b);
    assert AsWrittenChunks(s, c)[k] == Substring(s, a, b);
  }

  /** Fixed-stride chunking: every chunk but the last has exactly c characters. */
  function FixedChunks(s: string, c: nat): seq<string>
    requires c >= 1
    decreases |s|
  {
    if |s| == 0 then []
    else if |s| <= c then [s]
    else [s[..c]] + FixedChunks(s[c..], c)
  }

  /** The corrected loop: each chunk ends one stride after it starts, `str.substring(i, i + chunkSize)`. */
  method SplitIntoFixedChunks(str: string, chunkSize: nat) returns (chunks: seq<string>)
    requires chunkSize >= 1
    ensures chunks == FixedChunks(str, chunkSize)
  {
    chunks := [];
    var i := 0;
    while i < |str|
      invariant chunks + FixedChunks(str[Min(i, |str|)..], chunkSize) == FixedChunks(str, chunkSize)
      decreases |str| - i
    {
      var rest := str[i..];
      var chunk := Substring(str, i, i + chunkSize);
      if |rest| <= chunkSize {
        assert chunk == rest;
        assert str[Min(i + chunkSize, |str|)..] == [];
      } else {
        assert chunk == rest[..chunkSize];
        assert rest[chunkSize..] == str[i + chunkSize..];
      }
      chunks := chunks + [chunk];
      i := i + chunkSize;
    }
    assert str[Min(i, |str|)..] == [];
  }

  /** Joining the fixed-stride chunks gives back the string exactly. */
  lemma {:induction false} FixedChunksJoin(s: string, c: nat)
    requires c >= 1
    ensures Concat(FixedChunks(s, c)) == s
    decreases |s|
  {
    if |s| > c {
      FixedChunksJoin(s[c..], c);
      assert s[..c] + s[c..] == s;
    }
  }

  /** Every fixed-stride chunk is non-empty and at most c long; all but the last are exactly c. */
  lemma {:induction false} FixedChunksSizes(s: string, c: nat)
    requires c >= 1
    ensures forall k :: 0 <= k < |FixedChunks(s, c)| ==> 1 <= |FixedChunks(s, c)[k]| <= c
    ensures forall k :: 0 <= k < |FixedChunks(s, c)| - 1 ==> |FixedChunks(s, c)[k]| == c
    decreases |s|
  {
    if |s| > c {
      FixedChunksSizes(s[c..], c);
      var r := FixedChunks(s, c);
      assert r == [s[..c]] + FixedChunks(s[c..], c);
      assert forall k :: 1 <= k < |r| ==> r[k] == FixedChunks(s[c..], c)[k - 1];
    }
  }

  /** There are ceil(|s| / c) fixed-stride chunks, as many as the source produces. */
  lemma {:induction false} FixedChunksCount(s: string, c: nat)
    requires c >= 1
    ensures |FixedChunks(s, c)| == NumChunks(|s|, c)
    decreases |s|
  {
    var n := |s|;
    if n == 0 {
      NumChunksBounds(n, c, 0);
    } else if n <= c {
      NumChunksBounds(n, c, 0);
      NumChunksBounds(n, c, 1);
    } else {
      FixedChunksCount(s[c..], c);
      var m := NumChunks(n - c, c);
      NumChunksStep(n, c, m);
    }
  }

  /** Dropping one stride from a string longer than it drops one chunk. */
  lemma NumChunksStep(n: nat, c: nat, m: nat)
    requires c >= 1 && n > c && m == NumChunks(n - c, c)
    ensures NumChunks(n, c) == m + 1
  {
    NumChunksBounds(n - c, c, m);
    NumChunksBounds(n - c, c, 0);
    NumChunksBounds(n - c, c, m - 1);
    NumChunksBounds(n, c, m + 1);
    NumChunksBounds(n, c, m);
    var p := m * c;
    assert (m + 1) * c == p + c;
    assert (m - 1) * c + c == p;
  }

  /** The end offset the source computes never falls short of one stride past the start. */
  lemma ChunkEndBound(c: nat, i: nat)
    requires c >= 1
    ensures c * (i + 1) >= i + c
  {
    MulAtLeast(c, i);
    assert c * (i + 1) == c * i + c;
  }

  /** Up to two strides, the source's chunks are the fixed-stride chunks. */
  lemma AsWrittenAgreesWhenShort(s: string, c: nat)
    requires c >= 1 && |s| <= 2 * c
    ensures AsWrittenChunks(s, c) == FixedChunks(s, c)
  {
    var n := |s|;
    var r := AsWrittenChunks(s, c);
    if n == 0 {
      NumChunksBounds(n, c, 0);
    } else if n <= c {
      NumChunksBounds(n, c, 0);
      NumChunksBounds(n, c, 1);
      assert r[0] == Substring(s, 0, c * 1);
      assert r[0] == s;
    } else {
      NumChunksBounds(n, c, 1);
      NumChunksBounds(n, c, 2);
      assert |r| == 2;
      ChunkEndBound(c, c);
      assert r[0] == Substring(s, 0, c * 1);
      assert r[0] == s[..c];
      assert r[1] == Substring(s, c, c * (c + 1));
      assert r[1] == s[c..];
      assert FixedChunks(s[c..], c) == [s[c..]];
    }
  }

  /** A reply of at most two strides arrives whole: the chunks join back to it. */
  lemma AsWrittenJoinWhenShort(s: string, c: nat)
    requires c >= 1 && |s| <= 2 * c
    ensures Concat(AsWrittenChunks(s, c)) == s
  {
    AsWrittenAgreesWhenShort(s, c);
    FixedChunksJoin(s, c);
  }

  /** A non-empty reply no longer than one stride is sent as one chunk equal to it. */
  lemma AsWrittenSingleChunk(s: string, c: nat)
    requires 1 <= |s| <= c
    ensures AsWrittenChunks(s, c) == [s]
  {
    AsWrittenAgreesWhenShort(s, c);
  }

  lemma ChunkEndPastTwoStrides(c: nat)
    requires c >= 2
    ensures c * (c + 1) >= 2 * c + 1
  {
    MulMono(2, c, c + 1);
  }

  lemma Concat3(a: string, b: string, d: string)
    ensures Concat([a, b, d]) == a + b + d
  {
    assert [a, b, d][1..] == [b, d];
    assert [b, d][1..] == [d];
    assert [d][1..] == [];
    assert Concat([d]) == d + "" == d;
    assert Concat([b, d]) == b + d;
    assert Concat([a, b, d]) == a + (b + d);
  }

  /** The three chunks the source cuts from a string one character past two strides. */
  lemma OverlapChunks(s: string, c: nat)
    requires c >= 2 && |s| == 2 * c + 1
    ensures AsWrittenChunks(s, c) == [s[..c], s[c..], s[2 * c..]]
  {
    var n := |s|;
    var r := AsWrittenChunks(s, c);
    NumChunksBounds(n, c, 2);
    NumChunksBounds(n, c, 3);
    assert |r| == 3;
    assert r[0] == s[..c] by {
      assert r[0] == Substring(s, 0, c * 1);
    }
    assert r[1] == s[c..] by {
      ChunkEndPastTwoStrides(c);
      assert r[1] == Substring(s, c, c * (c + 1));
    }
    assert r[2] == s[2 * c..] by {
      ChunkEndBound(c, 2 * c);
      assert r[2] == Substring(s, 2 * c, c * (2 * c + 1));
    }
  }

  /**
   * One character past two strides (c >= 2) the source sends three chunks:
   * the second is c + 1 characters long, one more than the chunk size, and
   * the third repeats its last character, so the chunks join to a string one
   * character longer than the reply.
   */
  lemma OverlapOnLongReply(s: string, c: nat)
    requires c >= 2 && |s| == 2 * c + 1
    ensures AsWrittenChunks(s, c) == [s[..c], s[c..], s[2 * c..]]
    ensures |AsWrittenChunks(s, c)[1]| == c + 1
    ensures |Concat(AsWrittenChunks(s, c))| == |s| + 1
    ensures Concat(AsWrittenChunks(s, c)) != s
  {
    OverlapChunks(s, c);
    Concat3(s[..c], s[c..], s[2 * c..]);
  }
}
