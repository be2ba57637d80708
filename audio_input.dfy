/**
 * Sound-gated capture: wait for a block louder than the threshold, record from
 * that block on, and stop after a run of quiet blocks or at a block-count cap.
 * The audio stream is a given sequence of blocks, each carrying its samples and
 * its RMS level (the RMS computation itself is not modelled).
 */
module AudioInput {
  import opened Common

  datatype Block = Block(samples: seq<real>, rms: real)

  /** A block that starts recording. */
  predicate Loud(b: Block, threshold: real) { b.rms > threshold }

  /** A block that counts towards the silence run. */
  predicate Quiet(b: Block, threshold: real) { b.rms < threshold }

  /** `int(seconds * samplerate / blocksize)`: a duration expressed in whole blocks. */
  function BlocksFor(seconds: real, samplerate: int, blocksize: int): int
    requires blocksize > 0
  {
    Trunc(seconds * samplerate as real / blocksize as real)
  }

  /** Number of blocks the capture loop can read: the cap, bounded by the stream. */
  function Readable(blocks: seq<Block>, maxBlocks: int): (n: nat)
    ensures n <= |blocks| && n as int <= (if maxBlocks < 0 then 0 else maxBlocks)
    ensures 0 <= maxBlocks ==> n == |blocks| || n == maxBlocks
  {
    if maxBlocks < 0 then 0 else Min(maxBlocks, |blocks|)
  }

  /** Length of the run of quiet blocks that ends at index `j`. */
  function QuietRun(blocks: seq<Block>, threshold: real, j: nat): (r: nat)
    requires j < |blocks|
    ensures r == 0 <==> !Quiet(blocks[j], threshold)
    ensures r <= j + 1
  {
    if !Quiet(blocks[j], threshold) then 0
    else if j == 0 then 1
    else 1 + QuietRun(blocks, threshold, j - 1)
  }

  /** Block `j` completes the silence run that ends the recording. */
  predicate StopsAt(blocks: seq<Block>, threshold: real, needed: int, j: nat)
    requires j < |blocks|
  {
    Quiet(blocks[j], threshold) && QuietRun(blocks, threshold, j) >= needed
  }

  /** The first loud block in `[from, n)`, or `n` when there is none. */
  function FirstLoud(blocks: seq<Block>, threshold: real, from: nat, n: nat): (k: nat)
    requires from <= n <= |blocks|
    ensures from <= k <= n
    ensures k < n ==> Loud(blocks[k], threshold)
    ensures forall i :: from <= i < k ==> !Loud(blocks[i], threshold)
    decreases n - from
  {
    if from == n then n
    else if Loud(blocks[from], threshold) then from
    else FirstLoud(blocks, threshold, from + 1, n)
  }

  /** The first block in `[from, n)` that ends the recording, or `n` when there is none. */
  function FirstStop(blocks: seq<Block>, threshold: real, needed: int, from: nat, n: nat): (j: nat)
    requires from <= n <= |blocks|
    ensures from <= j <= n
    ensures j < n ==> StopsAt(blocks, threshold, needed, j)
    ensures forall i :: from <= i < j ==> !StopsAt(blocks, threshold, needed, i)
    decreases n - from
  {
    if from == n then n
    else if StopsAt(blocks, threshold, needed, from) then from
    else FirstStop(blocks, threshold, needed, from + 1, n)
  }

  /**
   * The recorded blocks are exactly `blocks[start..end]`; see `WindowMeaning`.
   */
  function Window(blocks: seq<Block>, threshold: real, needed: int, maxBlocks: int): (w: (nat, nat))
    ensures w.0 <= w.1 <= Readable(blocks, maxBlocks)
  {
    var n := Readable(blocks, maxBlocks);
    var k := FirstLoud(blocks, threshold, 0, n);
    if k == n then (n, n)
    else
      var j := FirstStop(blocks, threshold, needed, k + 1, n);
      (k, if j < n then j + 1 else n)
  }

  /** The silence counter is the length of a run of consecutive quiet blocks. */
  lemma {:induction false} QuietRunIsRun(blocks: seq<Block>, threshold: real, j: nat)
    requires j < |blocks|
    ensures forall i :: j + 1 - QuietRun(blocks, threshold, j) <= i <= j ==> Quiet(blocks[i], threshold)
    ensures QuietRun(blocks, threshold, j) <= j ==> !Quiet(blocks[j - QuietRun(blocks, threshold, j)], threshold)
  {
    if Quiet(blocks[j], threshold) && j > 0 {
      QuietRunIsRun(blocks, threshold, j - 1);
    }
  }

  /**
   * What is recorded: nothing when no readable block is loud; otherwise the
   * first loud block (blocks before it are discarded) and every block after it,
   * up to and including the first one that completes the silence run, or up to
   * the cap when none does.
   */
  lemma WindowMeaning(blocks: seq<Block>, threshold: real, needed: int, maxBlocks: int)
    ensures var w := Window(blocks, threshold, needed, maxBlocks);
      && (w.0 == w.1 <==> forall i :: 0 <= i < Readable(blocks, maxBlocks) ==> !Loud(blocks[i], threshold))
      && (w.0 < w.1 ==> Loud(blocks[w.0], threshold))
      && (forall i :: 0 <= i < w.0 && i < w.1 ==> !Loud(blocks[i], threshold))
      && (w.0 < w.1 ==> forall i :: w.0 < i < w.1 - 1 ==> !StopsAt(blocks, threshold, needed, i))
      && (w.0 < w.1 < Readable(blocks, maxBlocks) ==>
            w.0 < w.1 - 1 && StopsAt(blocks, threshold, needed, w.1 - 1))
  {
  }

  /** The first loud block is the only one with no loud block before it. */
  lemma {:induction false} FirstLoudUnique(blocks: seq<Block>, threshold: real, from: nat, n: nat, k: nat)
    requires from <= k < n <= |blocks|
    requires Loud(blocks[k], threshold)
    requires forall i :: from <= i < k ==> !Loud(blocks[i], threshold)
    ensures FirstLoud(blocks, threshold, from, n) == k
    decreases k - from
  {
    if from < k {
      FirstLoudUnique(blocks, threshold, from + 1, n, k);
    }
  }

  /** The first block that completes the silence run is the only one with none before it. */
  lemma {:induction false} FirstStopUnique(blocks: seq<Block>, threshold: real, needed: int, from: nat, n: nat, j: nat)
    requires from <= j < n <= |blocks|
    requires StopsAt(blocks, threshold, needed, j)
    requires forall i :: from <= i < j ==> !StopsAt(blocks, threshold, needed, i)
    ensures FirstStop(blocks, threshold, needed, from, n) == j
    decreases j - from
  {
    if from < j {
      FirstStopUnique(blocks, threshold, needed, from + 1, n, j);
    }
  }

  /** A block's samples; `np.concatenate(recorded)` is `Flatten(Map(Samples, recorded))`. */
  function Samples(b: Block): seq<real> { b.samples }

  /** The state of the capture loop: the `recording` flag, `silence_blocks`, whether it broke out, and the blocks kept. */
  datatype Gate = Gate(recording: bool, silenceBlocks: int, stopped: bool, recorded: seq<Block>)

  /** One iteration of the capture loop on `block`; a stopped loop reads nothing more. */
  function GateStep(g: Gate, block: Block, threshold: real, needed: int): Gate
  {
    if g.stopped then g
    else if !g.recording then
      if block.rms > threshold then Gate(true, 0, false, g.recorded + [block]) else g
    else if block.rms < threshold then
      Gate(true, g.silenceBlocks + 1, g.silenceBlocks + 1 >= needed, g.recorded + [block])
    else
      Gate(true, 0, false, g.recorded + [block])
  }

  /** The capture loop run over `blocks` from its initial state. */
  function RunGate(blocks: seq<Block>, threshold: real, needed: int): Gate
  {
    if blocks == [] then Gate(false, 0, false, [])
    else GateStep(RunGate(blocks[..|blocks| - 1], threshold, needed), blocks[|blocks| - 1], threshold, needed)
  }

  /** Running the loop one block further is one more step. */
  lemma RunGateSnoc(blocks: seq<Block>, threshold: real, needed: int, i: nat)
    requires i < |blocks|
    ensures RunGate(blocks[..i + 1], threshold, needed)
            == GateStep(RunGate(blocks[..i], threshold, needed), blocks[i], threshold, needed)
  {
    assert blocks[..i + 1][..i] == blocks[..i];
  }

  /** Once the loop has broken out, later blocks change nothing. */
  lemma {:induction false} StoppedStaysStopped(blocks: seq<Block>, threshold: real, needed: int, i: nat)
    requires i <= |blocks|
    requires RunGate(blocks[..i], threshold, needed).stopped
    ensures RunGate(blocks, threshold, needed) == RunGate(blocks[..i], threshold, needed)
    decreases |blocks|
  {
    if i < |blocks| {
      assert blocks[..|blocks| - 1][..i] == blocks[..i];
      StoppedStaysStopped(blocks[..|blocks| - 1], threshold, needed, i);
    } else {
      assert blocks[..i] == blocks;
    }
  }

  /** Extending the search range by one block. */
  lemma {:induction false} FirstStopExtend(blocks: seq<Block>, threshold: real, needed: int, from: nat, i: nat)
    requires from <= i < |blocks|
    ensures FirstStop(blocks, threshold, needed, from, i + 1) ==
            if FirstStop(blocks, threshold, needed, from, i) < i then FirstStop(blocks, threshold, needed, from, i)
            else if StopsAt(blocks, threshold, needed, i) then i else i + 1
    decreases i - from
  {
    if from < i && !StopsAt(blocks, threshold, needed, from) {
      FirstStopExtend(blocks, threshold, needed, from + 1, i);
    }
  }

  /** The state of the loop after the first `i` blocks, described without the loop. */
  function Expected(blocks: seq<Block>, threshold: real, needed: int, n: nat, i: nat): Gate
    requires i <= n <= |blocks|
  {
    var k := FirstLoud(blocks, threshold, 0, n);
    if i <= k then Gate(false, 0, false, [])
    else
      var j := FirstStop(blocks, threshold, needed, k + 1, i);
      if j < i then Gate(true, QuietRun(blocks, threshold, j), true, blocks[k..j + 1])
      else Gate(true, QuietRun(blocks, threshold, i - 1), false, blocks[k..i])
  }

  /** Past the trigger and before any stop, one more block moves the described state as the loop does. */
  lemma ExpectedStepLive(blocks: seq<Block>, threshold: real, needed: int, n: nat, i: nat, k: nat)
    requires k < i < n <= |blocks|
    requires k == FirstLoud(blocks, threshold, 0, n)
    requires FirstStop(blocks, threshold, needed, k + 1, i) == i
    ensures Expected(blocks, threshold, needed, n, i) == Gate(true, QuietRun(blocks, threshold, i - 1), false, blocks[k..i])
    ensures Expected(blocks, threshold, needed, n, i + 1) ==
              Gate(true, QuietRun(blocks, threshold, i), StopsAt(blocks, threshold, needed, i), blocks[k..i] + [blocks[i]])
  {
    FirstStopExtend(blocks, threshold, needed, k + 1, i);
    assert blocks[k..i + 1] == blocks[k..i] + [blocks[i]];
  }

  /** Past the trigger, one more block moves the described state as the loop does. */
  lemma ExpectedStepRecording(blocks: seq<Block>, threshold: real, needed: int, n: nat, i: nat)
    requires i < n <= |blocks|
    requires FirstLoud(blocks, threshold, 0, n) < i
    ensures GateStep(Expected(blocks, threshold, needed, n, i), blocks[i], threshold, needed)
            == Expected(blocks, threshold, needed, n, i + 1)
  {
    var k := FirstLoud(blocks, threshold, 0, n);
    FirstStopExtend(blocks, threshold, needed, k + 1, i);
    var j := FirstStop(blocks, threshold, needed, k + 1, i);
    if j == i {
      ExpectedStepLive(blocks, threshold, needed, n, i, k);
      if i - 1 == k {
        assert QuietRun(blocks, threshold, i - 1) == 0;
      }
    }
  }

  /** One more block moves the described state exactly as the loop does. */
  lemma ExpectedStep(blocks: seq<Block>, threshold: real, needed: int, n: nat, i: nat)
    requires i < n <= |blocks|
    ensures GateStep(Expected(blocks, threshold, needed, n, i), blocks[i], threshold, needed)
            == Expected(blocks, threshold, needed, n, i + 1)
  {
    var k := FirstLoud(blocks, threshold, 0, n);
    if i < k {
      assert !Loud(blocks[i], threshold);
    } else if i == k {
      assert blocks[k..i + 1] == [blocks[i]];
      assert FirstStop(blocks, threshold, needed, k + 1, i + 1) == i + 1;
    } else {
      ExpectedStepRecording(blocks, threshold, needed, n, i);
    }
  }

  /** The loop state after each prefix is the one `Expected` describes. */
  lemma {:induction false} RunGateIsExpected(blocks: seq<Block>, threshold: real, needed: int, n: nat, i: nat)
    requires i <= n <= |blocks|
    ensures RunGate(blocks[..i], threshold, needed) == Expected(blocks, threshold, needed, n, i)
  {
    if i > 0 {
      RunGateIsExpected(blocks, threshold, needed, n, i - 1);
      assert blocks[..i][..i - 1] == blocks[..i - 1];
      ExpectedStep(blocks, threshold, needed, n, i - 1);
    } else {
      assert FirstLoud(blocks, threshold, 0, n) >= 0;
    }
  }

  /** The blocks the capture loop keeps, for a `silence_blocks_needed` and a `max_blocks`. */
  function RecordedBlocks(blocks: seq<Block>, threshold: real, needed: int, maxBlocks: int): seq<Block>
  {
    RunGate(blocks[..Readable(blocks, maxBlocks)], threshold, needed).recorded
  }

  /** The loop keeps exactly the blocks of `Window`. */
  lemma RecordedIsWindow(blocks: seq<Block>, threshold: real, needed: int, maxBlocks: int)
    ensures var w := Window(blocks, threshold, needed, maxBlocks);
      RecordedBlocks(blocks, threshold, needed, maxBlocks) == blocks[w.0..w.1]
  {
    var n := Readable(blocks, maxBlocks);
    RunGateIsExpected(blocks, threshold, needed, n, n);
  }

  /**
   * `capture_on_sound_then_until_silence`: record from the first loud block and
   * return the concatenated samples of every recorded block.
   */
  method CaptureOnSoundThenUntilSilence(
    blocks: seq<Block>, samplerate: int, threshold: real,
    silenceDuration: real, blocksize: int, maxRecord: real)
    returns (audio: seq<real>)
    requires blocksize > 0
    ensures audio == Flatten(Map(Samples, RecordedBlocks(blocks, threshold, BlocksFor(silenceDuration, samplerate, blocksize),
                                            BlocksFor(maxRecord, samplerate, blocksize))))
  {
    var silenceBlocksNeeded := BlocksFor(silenceDuration, samplerate, blocksize);
    var maxBlocks := BlocksFor(maxRecord, samplerate, blocksize);
    ghost var n := Readable(blocks, maxBlocks);
    var recorded: seq<Block> := [];
    var recording := false;
    var silenceBlocks := 0;
    var blockIdx := 0;
    while blockIdx < maxBlocks && blockIdx < |blocks|
      invariant 0 <= blockIdx <= n
      invariant RunGate(blocks[..blockIdx], threshold, silenceBlocksNeeded)
                == Gate(recording, silenceBlocks, false, recorded)
    {
      var block := blocks[blockIdx];
      ghost var next := GateStep(Gate(recording, silenceBlocks, false, recorded), block, threshold, silenceBlocksNeeded);
      RunGateSnoc(blocks, threshold, silenceBlocksNeeded, blockIdx);
      if !recording {
        if block.rms > threshold {
          recording := true;
          recorded := recorded + [block];
          silenceBlocks := 0;
        }
      } else {
        recorded := recorded + [block];
        if block.rms < threshold {
          silenceBlocks := silenceBlocks + 1;
          if silenceBlocks >= silenceBlocksNeeded {
            assert next.stopped && next.recorded == recorded;
            assert blocks[..n][..blockIdx + 1] == blocks[..blockIdx + 1];
            StoppedStaysStopped(blocks[..n], threshold, silenceBlocksNeeded, blockIdx + 1);
            break;
          }
        } else {
          silenceBlocks := 0;
        }
      }
      blockIdx := blockIdx + 1;
    }
    audio := Flatten(Map(Samples, recorded));
  }

  /**
   * `capture_audio_blocks_on_sound_then_until_silence`: the generator form; the
   * result lists the blocks yielded, in order (a mono block is its own flattening).
   */
  method CaptureAudioBlocksOnSoundThenUntilSilence(
    blocks: seq<Block>, samplerate: int, threshold: real,
    silenceDuration: real, blocksize: int, maxRecord: real)
    returns (yielded: seq<Block>)
    requires blocksize > 0
    ensures yielded == RecordedBlocks(blocks, threshold, BlocksFor(silenceDuration, samplerate, blocksize),
                                      BlocksFor(maxRecord, samplerate, blocksize))
  {
    var silenceBlocksNeeded := BlocksFor(silenceDuration, samplerate, blocksize);
    var maxBlocks := BlocksFor(maxRecord, samplerate, blocksize);
    ghost var n := Readable(blocks, maxBlocks);
    yielded := [];
    var recording := false;
    var silenceBlocks := 0;
    var blockIdx := 0;
    while blockIdx < maxBlocks && blockIdx < |blocks|
      invariant 0 <= blockIdx <= n
      invariant RunGate(blocks[..blockIdx], threshold, silenceBlocksNeeded)
                == Gate(recording, silenceBlocks, false, yielded)
    {
      var block := blocks[blockIdx];
      ghost var next := GateStep(Gate(recording, silenceBlocks, false, yielded), block, threshold, silenceBlocksNeeded);
      RunGateSnoc(blocks, threshold, silenceBlocksNeeded, blockIdx);
      if !recording {
        if block.rms > threshold {
          recording := true;
          silenceBlocks := 0;
          yielded := yielded + [block];
        }
      } else {
        yielded := yielded + [block];
        if block.rms < threshold {
          silenceBlocks := silenceBlocks + 1;
          if silenceBlocks >= silenceBlocksNeeded {
            assert next.stopped && next.recorded == yielded;
            assert blocks[..n][..blockIdx + 1] == blocks[..blockIdx + 1];
            StoppedStaysStopped(blocks[..n], threshold, silenceBlocksNeeded, blockIdx + 1);
            break;
          }
        } else {
          silenceBlocks := 0;
        }
      }
      blockIdx := blockIdx + 1;
    }
  }
}
