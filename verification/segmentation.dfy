/**
 * Cutting the normalized audio into consecutive windows of ten seconds.
 * Audio is a sequence of one-millisecond units, so `|audio|` is the
 * duration in milliseconds, as `len(audio)` is for the audio segment.
 */
module Segmentation {
  import opened Sequences

  /** Nominal length of one chunk, in milliseconds. */
  const ChunkDurationMs: nat := 10000

  function Min(a: int, b: int): int { if a <= b then a else b }

  /**
   * The start offsets `range(start, stop, ChunkDurationMs)`: every
   * `start + k * ChunkDurationMs` that is still below `stop`.
   */
  function ChunkStarts(start: nat, stop: nat): (r: seq<nat>)
    ensures |r| == if start < stop then (stop - start + ChunkDurationMs - 1) / ChunkDurationMs else 0
    ensures forall k :: 0 <= k < |r| ==> r[k] == start + k * ChunkDurationMs && r[k] < stop
    decreases stop - start
  {
    if start >= stop then [] else [start] + ChunkStarts(start + ChunkDurationMs, stop)
  }

  /**
   * The slice `audio[start:end]`. A bound beyond the end of the audio is
   * cut back to its length, so a window that runs past the end holds
   * whatever remains.
   */
  function Slice<T>(audio: seq<T>, start: nat, end: nat): (r: seq<T>)
    ensures |r| == if Min(start, |audio|) < Min(end, |audio|) then Min(end, |audio|) - start else 0
    ensures forall j :: 0 <= j < |r| ==> r[j] == audio[start + j]
  {
    var s := Min(start, |audio|);
    var e := Min(end, |audio|);
    if s < e then audio[s..e] else []
  }

  /** The chunk list `[audio[i:i + 10000] for i in range(0, len(audio), 10000)]`. */
  function Chunks<T>(audio: seq<T>): (r: seq<seq<T>>)
    ensures |r| == (|audio| + ChunkDurationMs - 1) / ChunkDurationMs
    ensures |audio| == 0 ==> r == []
  {
    var starts := ChunkStarts(0, |audio|);
    seq(|starts|, k requires 0 <= k < |starts| => Slice(audio, starts[k], starts[k] + ChunkDurationMs))
  }

  /**
   * Chunk `k` is exactly the window `[k * 10000, min((k + 1) * 10000, |audio|))`:
   * chunks start on consecutive multiples of the chunk length, so they are
   * in playback order and do not overlap.
   */
  lemma ChunkSpan<T>(audio: seq<T>, k: nat)
    requires k < |Chunks(audio)|
    ensures k * ChunkDurationMs < |audio|
    ensures Chunks(audio)[k] == audio[k * ChunkDurationMs .. Min((k + 1) * ChunkDurationMs, |audio|)]
  {
  }

  /** Every chunk but the last is a full window; the last holds 1 to 10000 units. */
  lemma ChunkSizes<T>(audio: seq<T>, k: nat)
    requires k < |Chunks(audio)|
    ensures k + 1 < |Chunks(audio)| ==> |Chunks(audio)[k]| == ChunkDurationMs
    ensures 0 < |Chunks(audio)[k]| <= ChunkDurationMs
    ensures k + 1 == |Chunks(audio)| ==> |Chunks(audio)[k]| == |audio| - k * ChunkDurationMs
  {
  }

  /** The first `k` chunks joined give back the first `min(k * 10000, |audio|)` units. */
  lemma {:induction false} FlattenChunksPrefix<T>(audio: seq<T>, k: nat)
    requires k <= |Chunks(audio)|
    ensures Flatten(Chunks(audio)[..k]) == audio[..Min(k * ChunkDurationMs, |audio|)]
  {
    var cs := Chunks(audio);
    if k == 0 {
      assert cs[..0] == [];
      assert Flatten<T>([]) == [];
    } else {
      var prev, c := cs[..k - 1], cs[k - 1];
      var lo := (k - 1) * ChunkDurationMs;
      var hi := Min(k * ChunkDurationMs, |audio|);
      FlattenChunksPrefix(audio, k - 1);
      ChunkSpan(audio, k - 1);
      assert Flatten(prev) == audio[..lo];
      assert c == audio[lo..hi];
      assert cs[..k] == prev + [c];
      FlattenSnoc(prev, c);
      assert audio[..hi] == audio[..lo] + audio[lo..hi];
    }
  }

  /** Joining all chunks in order reproduces the normalized audio exactly. */
  lemma FlattenChunks<T>(audio: seq<T>)
    ensures Flatten(Chunks(audio)) == audio
  {
    var cs := Chunks(audio);
    FlattenChunksPrefix(audio, |cs|);
    assert cs[..|cs|] == cs;
    if |cs| > 0 {
      ChunkSizes(audio, |cs| - 1);
    }
    assert audio[..|audio|] == audio;
  }

  /** A 25-second recording gives three chunks: two of 10 s and one of 5 s. */
  lemma TwentyFiveSeconds<T>(audio: seq<T>)
    requires |audio| == 25000
    ensures |Chunks(audio)| == 3
    ensures |Chunks(audio)[0]| == 10000 && |Chunks(audio)[1]| == 10000 && |Chunks(audio)[2]| == 5000
  {
  }
}
