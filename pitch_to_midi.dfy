/**
 * The note segmenter: per-frame (time, pitch, confidence) triples, as produced
 * by the pitch estimator and converted to fractional MIDI numbers, become
 * committed notes. The batch form walks one frame list; the streaming class
 * carries the open note across blocks.
 */
module PitchToMidi {
  import opened Common

  /** One estimator frame: time in seconds, fractional MIDI pitch, confidence. */
  datatype Frame = Frame(time: real, midi: real, conf: real)

  /** A committed note, the dict `{note, start_time, duration}`. */
  datatype Note = Note(note: int, startTime: real, duration: real)

  /** The note currently held: its onset frame's pitch and time. */
  datatype Active = Active(pitch: real, onset: real)

  /** The segmenter state: committed notes and the open note, if any. */
  datatype Seg = Seg(notes: seq<Note>, current: Option<Active>)

  datatype Error = UnsupportedSampleRate(samplerate: int)

  const Initial: Seg := Seg([], None)

  /** Confidence at or above the threshold and a pitch inside the MIDI range. */
  predicate Voiced(f: Frame, threshold: real)
  {
    f.conf >= threshold && 0.0 <= f.midi <= 127.0
  }

  /** The frame's pitch is more than half a semitone away from the held pitch. */
  predicate Jumps(f: Frame, a: Active)
  {
    var d := f.midi - a.pitch;
    (if d < 0.0 then -d else d) > 0.5
  }

  /** Close the held note `a` at time `t`: commit it only when it lasted at least `minNoteLen`. */
  function Close(notes: seq<Note>, a: Active, t: real, minNoteLen: real): seq<Note>
  {
    if t - a.onset >= minNoteLen then notes + [Note(RoundHalfEven(a.pitch), a.onset, t - a.onset)]
    else notes
  }

  /** One frame of the onset loop. */
  function SegStep(s: Seg, f: Frame, threshold: real, minNoteLen: real): Seg
  {
    if Voiced(f, threshold) then
      match s.current
      case None => Seg(s.notes, Some(Active(f.midi, f.time)))
      case Some(a) =>
        if Jumps(f, a) then Seg(Close(s.notes, a, f.time, minNoteLen), Some(Active(f.midi, f.time)))
        else s
    else
      match s.current
      case None => s
      case Some(a) => Seg(Close(s.notes, a, f.time, minNoteLen), None)
  }

  /** The onset loop run over `frames` from state `s`. */
  function SegmentFrom(s: Seg, frames: seq<Frame>, threshold: real, minNoteLen: real): Seg
  {
    if frames == [] then s
    else SegStep(SegmentFrom(s, frames[..|frames| - 1], threshold, minNoteLen), frames[|frames| - 1], threshold, minNoteLen)
  }

  /** Close a still-open note at `lastTime` (the "add last note if still active" step). */
  function Finish(s: Seg, lastTime: real, minNoteLen: real): seq<Note>
  {
    match s.current
    case None => s.notes
    case Some(a) => Close(s.notes, a, lastTime, minNoteLen)
  }

  /** Time of the last frame; only consulted when a note is open, hence when there are frames. */
  function LastTime(frames: seq<Frame>): real
  {
    if frames == [] then 0.0 else frames[|frames| - 1].time
  }

  /** The notes the batch form returns for a frame list. */
  function Segment(frames: seq<Frame>, threshold: real, minNoteLen: real): seq<Note>
  {
    Finish(SegmentFrom(Initial, frames, threshold, minNoteLen), LastTime(frames), minNoteLen)
  }

  /**
   * `audio_to_midi` after the pitch estimation: reject an unsupported sample
   * rate before any processing, then walk the frames.
   */
  method AudioToMidi(frames: seq<Frame>, samplerate: int, threshold: real, minNoteLen: real)
    returns (r: Result<seq<Note>, Error>)
    ensures samplerate != 16000 && samplerate != 44100 ==> r == Err(UnsupportedSampleRate(samplerate))
    ensures samplerate == 16000 || samplerate == 44100 ==> r == Ok(Segment(frames, threshold, minNoteLen))
  {
    if samplerate != 16000 && samplerate != 44100 {
      return Err(UnsupportedSampleRate(samplerate));
    }
    var notes: seq<Note> := [];
    var currentNote: Option<real> := None;
    var currentOnset: Option<real> := None;
    for i := 0 to |frames|
      invariant currentNote.Some? == currentOnset.Some?
      invariant SegmentFrom(Initial, frames[..i], threshold, minNoteLen) ==
                Seg(notes, if currentNote.Some? then Some(Active(currentNote.value, currentOnset.value)) else None)
    {
      assert frames[..i + 1][..i] == frames[..i];
      var f := frames[i];
      if f.conf >= threshold && 0.0 <= f.midi <= 127.0 {
        if currentNote.None? {
          currentNote, currentOnset := Some(f.midi), Some(f.time);
        } else if (if f.midi - currentNote.value < 0.0 then currentNote.value - f.midi else f.midi - currentNote.value) > 0.5 {
          var duration := f.time - currentOnset.value;
          if duration >= minNoteLen {
            notes := notes + [Note(RoundHalfEven(currentNote.value), currentOnset.value, duration)];
          }
          currentNote, currentOnset := Some(f.midi), Some(f.time);
        }
      } else {
        if currentNote.Some? {
          var duration := f.time - currentOnset.value;
          if duration >= minNoteLen {
            notes := notes + [Note(RoundHalfEven(currentNote.value), currentOnset.value, duration)];
          }
          currentNote, currentOnset := None, None;
        }
      }
    }
    assert frames[..|frames|] == frames;
    if currentNote.Some? && currentOnset.Some? {
      var duration := frames[|frames| - 1].time - currentOnset.value;
      if duration >= minNoteLen {
        notes := notes + [Note(RoundHalfEven(currentNote.value), currentOnset.value, duration)];
      }
    }
    r := Ok(notes);
  }

  // ---- Properties of the segmenter ----

  /** Committed notes are never altered or dropped: the loop only appends. */
  lemma {:induction false} NotesOnlyGrow(s: Seg, frames: seq<Frame>, threshold: real, minNoteLen: real)
    ensures s.notes <= SegmentFrom(s, frames, threshold, minNoteLen).notes
    ensures s.notes <= Finish(SegmentFrom(s, frames, threshold, minNoteLen), LastTime(frames), minNoteLen)
    decreases |frames|
  {
    if frames != [] {
      NotesOnlyGrow(s, frames[..|frames| - 1], threshold, minNoteLen);
    }
  }

  /** A held note survives every voiced frame within half a semitone of its onset pitch. */
  lemma {:induction false} HeldNoteContinues(s: Seg, frames: seq<Frame>, threshold: real, minNoteLen: real)
    requires s.current.Some?
    requires forall i :: 0 <= i < |frames| ==> Voiced(frames[i], threshold) && !Jumps(frames[i], s.current.value)
    ensures SegmentFrom(s, frames, threshold, minNoteLen) == s
    decreases |frames|
  {
    if frames != [] {
      HeldNoteContinues(s, frames[..|frames| - 1], threshold, minNoteLen);
    }
  }

  /**
   * A pitch jump of more than half a semitone closes the held note at the
   * jumping frame's time (committing it when long enough) and opens the new
   * note at that same time.
   */
  lemma JumpClosesAndReopens(s: Seg, f: Frame, threshold: real, minNoteLen: real)
    requires s.current.Some? && Voiced(f, threshold) && Jumps(f, s.current.value)
    ensures var a := s.current.value; var r := SegStep(s, f, threshold, minNoteLen);
            r.current == Some(Active(f.midi, f.time))
            && (f.time - a.onset >= minNoteLen ==> r.notes == s.notes + [Note(RoundHalfEven(a.pitch), a.onset, f.time - a.onset)])
            && (f.time - a.onset < minNoteLen ==> r.notes == s.notes)
  {
  }

  /**
   * An unvoiced frame ends the held note at its time (committing it when
   * long enough); nothing is open afterwards.
   */
  lemma UnvoicedCloses(s: Seg, f: Frame, threshold: real, minNoteLen: real)
    requires !Voiced(f, threshold)
    ensures SegStep(s, f, threshold, minNoteLen).current == None
    ensures s.current == None ==> SegStep(s, f, threshold, minNoteLen) == s
    ensures s.current.Some? ==>
      var a := s.current.value; var r := SegStep(s, f, threshold, minNoteLen);
      (f.time - a.onset >= minNoteLen ==> r.notes == s.notes + [Note(RoundHalfEven(a.pitch), a.onset, f.time - a.onset)])
      && (f.time - a.onset < minNoteLen ==> r.notes == s.notes)
  {
  }

  ghost predicate LongEnough(notes: seq<Note>, minNoteLen: real)
  {
    forall i :: 0 <= i < |notes| ==> notes[i].duration >= minNoteLen
  }

  lemma {:induction false} SegmentFromLongEnough(s: Seg, frames: seq<Frame>, threshold: real, minNoteLen: real)
    requires LongEnough(s.notes, minNoteLen)
    ensures LongEnough(SegmentFrom(s, frames, threshold, minNoteLen).notes, minNoteLen)
    decreases |frames|
  {
    if frames != [] {
      SegmentFromLongEnough(s, frames[..|frames| - 1], threshold, minNoteLen);
    }
  }

  /** Every note the segmenter returns lasts at least `min_note_len`. */
  lemma SegmentLongEnough(frames: seq<Frame>, threshold: real, minNoteLen: real)
    ensures forall n :: n in Segment(frames, threshold, minNoteLen) ==> n.duration >= minNoteLen
  {
    SegmentFromLongEnough(Initial, frames, threshold, minNoteLen);
  }

  /** Frame times strictly increase, as the estimator's 10 ms grid does. */
  predicate Increasing(frames: seq<Frame>)
  {
    forall i, j :: 0 <= i < j < |frames| ==> frames[i].time < frames[j].time
  }

  function End(n: Note): real { n.startTime + n.duration }

  /** Start times strictly increase and no note overlaps a later one. */
  ghost predicate Ordered(notes: seq<Note>)
  {
    forall i, j :: 0 <= i < j < |notes| ==> notes[i].startTime < notes[j].startTime && End(notes[i]) <= notes[j].startTime
  }

  /** The loop invariant behind ordering, given that the last frame seen was at `t`. */
  ghost predicate InOrder(s: Seg, t: real)
  {
    Ordered(s.notes)
    && (forall i :: 0 <= i < |s.notes| ==> 0.0 < s.notes[i].duration && End(s.notes[i]) <= t)
    && (s.current.Some? ==>
          s.current.value.onset <= t && forall i :: 0 <= i < |s.notes| ==> End(s.notes[i]) <= s.current.value.onset)
  }

  lemma CloseInOrder(notes: seq<Note>, a: Active, t: real, t1: real, minNoteLen: real)
    requires InOrder(Seg(notes, Some(a)), t) && t < t1
    ensures InOrder(Seg(Close(notes, a, t1, minNoteLen), None), t1)
    ensures forall i :: 0 <= i < |Close(notes, a, t1, minNoteLen)| ==> End(Close(notes, a, t1, minNoteLen)[i]) <= t1
  {
  }

  lemma StepInOrder(s: Seg, t: real, f: Frame, threshold: real, minNoteLen: real)
    requires InOrder(s, t) && t < f.time
    ensures InOrder(SegStep(s, f, threshold, minNoteLen), f.time)
  {
    if s.current.Some? && (!Voiced(f, threshold) || Jumps(f, s.current.value)) {
      CloseInOrder(s.notes, s.current.value, t, f.time, minNoteLen);
    }
  }

  lemma {:induction false} SegmentFromInOrder(s: Seg, t0: real, frames: seq<Frame>, threshold: real, minNoteLen: real)
    requires InOrder(s, t0) && Increasing(frames) && (frames != [] ==> t0 < frames[0].time)
    ensures InOrder(SegmentFrom(s, frames, threshold, minNoteLen), if frames == [] then t0 else LastTime(frames))
    decreases |frames|
  {
    if frames != [] {
      var init := frames[..|frames| - 1];
      SegmentFromInOrder(s, t0, init, threshold, minNoteLen);
      var t := if init == [] then t0 else LastTime(init);
      assert init != [] ==> t == frames[|frames| - 2].time;
      StepInOrder(SegmentFrom(s, init, threshold, minNoteLen), t, frames[|frames| - 1], threshold, minNoteLen);
    }
  }

  lemma FinishOrdered(s: Seg, t: real, minNoteLen: real)
    requires InOrder(s, t)
    ensures Ordered(Finish(s, t, minNoteLen))
  {
  }

  /**
   * When frame times strictly increase, the returned notes come in
   * increasing start-time order and none overlaps the next.
   */
  lemma SegmentOrdered(frames: seq<Frame>, threshold: real, minNoteLen: real)
    requires Increasing(frames)
    ensures Ordered(Segment(frames, threshold, minNoteLen))
  {
    if frames != [] {
      SegmentFromInOrder(Initial, frames[0].time - 1.0, frames, threshold, minNoteLen);
      FinishOrdered(SegmentFrom(Initial, frames, threshold, minNoteLen), LastTime(frames), minNoteLen);
    }
  }

  /** Note `n` was opened at the voiced frame `fi` and lasted until the time of frame `fj`. */
  ghost predicate OpenedAndClosed(n: Note, fi: Frame, fj: Frame, threshold: real)
  {
    Voiced(fi, threshold) && n.note == RoundHalfEven(fi.midi) && n.startTime == fi.time && End(n) == fj.time
  }

  /** ... and `fj` is what broke the note: unvoiced, or a jump away from the onset pitch. */
  ghost predicate BrokenBy(n: Note, fi: Frame, fj: Frame, threshold: real)
  {
    OpenedAndClosed(n, fi, fj, threshold) && (!Voiced(fj, threshold) || Jumps(fj, Active(fi.midi, fi.time)))
  }

  ghost predicate OpenedAt(a: Active, f: Frame, threshold: real)
  {
    Voiced(f, threshold) && a == Active(f.midi, f.time)
  }

  /** Note `n` was opened at a voiced frame of `frames` and broken by a later one. */
  ghost predicate NoteCommitted(n: Note, frames: seq<Frame>, threshold: real)
  {
    exists i, j :: 0 <= i < j < |frames| && BrokenBy(n, frames[i], frames[j], threshold)
  }

  /** Note `n` was opened at a voiced frame of `frames` and was still open at the last one. */
  ghost predicate NoteFinal(n: Note, frames: seq<Frame>, threshold: real)
  {
    frames != [] && exists i :: 0 <= i < |frames| && OpenedAndClosed(n, frames[i], frames[|frames| - 1], threshold)
  }

  /** Every committed note was opened and broken by frames of `frames`; the open note was opened by one. */
  ghost predicate Traced(s: Seg, frames: seq<Frame>, threshold: real)
  {
    (forall k :: 0 <= k < |s.notes| ==> NoteCommitted(s.notes[k], frames, threshold))
    && (s.current.Some? ==> exists i :: 0 <= i < |frames| && OpenedAt(s.current.value, frames[i], threshold))
  }

  lemma NoteCommittedWiden(n: Note, frames: seq<Frame>, f: Frame, threshold: real)
    requires NoteCommitted(n, frames, threshold)
    ensures NoteCommitted(n, frames + [f], threshold)
  {
    var i, j :| 0 <= i < j < |frames| && BrokenBy(n, frames[i], frames[j], threshold);
    assert (frames + [f])[i] == frames[i] && (frames + [f])[j] == frames[j];
  }

  lemma TracedWiden(s: Seg, frames: seq<Frame>, f: Frame, threshold: real)
    requires Traced(s, frames, threshold)
    ensures Traced(s, frames + [f], threshold)
  {
    forall k | 0 <= k < |s.notes|
      ensures NoteCommitted(s.notes[k], frames + [f], threshold)
    {
      NoteCommittedWiden(s.notes[k], frames, f, threshold);
    }
    if s.current.Some? {
      var i :| 0 <= i < |frames| && OpenedAt(s.current.value, frames[i], threshold);
      assert (frames + [f])[i] == frames[i];
    }
  }

  /** A frame that breaks the open note commits it, if at all, as a note it broke. */
  lemma BreakTraced(notes: seq<Note>, a: Active, frames: seq<Frame>, f: Frame, threshold: real, minNoteLen: real)
    requires Traced(Seg(notes, Some(a)), frames, threshold)
    requires !Voiced(f, threshold) || Jumps(f, a)
    ensures Traced(Seg(Close(notes, a, f.time, minNoteLen), None), frames + [f], threshold)
  {
    var g := frames + [f];
    TracedWiden(Seg(notes, Some(a)), frames, f, threshold);
    var i :| 0 <= i < |frames| && OpenedAt(a, frames[i], threshold);
    assert g[i] == frames[i] && g[|frames|] == f;
    var c := Close(notes, a, f.time, minNoteLen);
    if |c| > |notes| {
      assert BrokenBy(c[|notes|], g[i], g[|frames|], threshold);
    }
  }

  lemma StepTraced(s: Seg, frames: seq<Frame>, f: Frame, threshold: real, minNoteLen: real)
    requires Traced(s, frames, threshold)
    ensures Traced(SegStep(s, f, threshold, minNoteLen), frames + [f], threshold)
  {
    var g := frames + [f];
    TracedWiden(s, frames, f, threshold);
    assert g[|frames|] == f;
    if s.current.Some? && (!Voiced(f, threshold) || Jumps(f, s.current.value)) {
      BreakTraced(s.notes, s.current.value, frames, f, threshold, minNoteLen);
    }
    if Voiced(f, threshold) {
      assert OpenedAt(Active(f.midi, f.time), g[|frames|], threshold);
    }
  }

  lemma {:induction false} SegmentFromTraced(frames: seq<Frame>, threshold: real, minNoteLen: real)
    ensures Traced(SegmentFrom(Initial, frames, threshold, minNoteLen), frames, threshold)
    decreases |frames|
  {
    if frames != [] {
      var init := frames[..|frames| - 1];
      SegmentFromTraced(init, threshold, minNoteLen);
      StepTraced(SegmentFrom(Initial, init, threshold, minNoteLen), init, frames[|frames| - 1], threshold, minNoteLen);
      assert init + [frames[|frames| - 1]] == frames;
    }
  }

  /**
   * Every returned note was opened at a voiced frame: its number is that
   * frame's pitch rounded half to even and its start is that frame's time. It
   * ends at the time of a later frame that was unvoiced or jumped away from
   * that pitch, or, for a note still open at the end, at the last frame's time.
   */
  lemma SegmentTraced(frames: seq<Frame>, threshold: real, minNoteLen: real)
    ensures forall n :: n in Segment(frames, threshold, minNoteLen) ==>
      NoteCommitted(n, frames, threshold) || NoteFinal(n, frames, threshold)
  {
    var s := SegmentFrom(Initial, frames, threshold, minNoteLen);
    var r := Segment(frames, threshold, minNoteLen);
    SegmentFromTraced(frames, threshold, minNoteLen);
    forall n | n in r
      ensures NoteCommitted(n, frames, threshold) || NoteFinal(n, frames, threshold)
    {
      var k :| 0 <= k < |r| && r[k] == n;
      if k >= |s.notes| {
        var a := s.current.value;
        var i :| 0 <= i < |frames| && OpenedAt(a, frames[i], threshold);
        assert OpenedAndClosed(n, frames[i], frames[|frames| - 1], threshold);
      }
    }
  }

  /** After `get_midi_events` has closed the open note, closing again changes nothing. */
  lemma FinishIdempotent(s: Seg, t: real, t2: real, minNoteLen: real)
    ensures Finish(Seg(Finish(s, t, minNoteLen), None), t2, minNoteLen) == Finish(s, t, minNoteLen)
  {
  }

  /** A block's frames with their block-relative times moved by `blockStartTime`. */
  function Offset(block: seq<Frame>, blockStartTime: real): (r: seq<Frame>)
    ensures |r| == |block|
    ensures forall i :: 0 <= i < |block| ==>
              r[i] == Frame(block[i].time + blockStartTime, block[i].midi, block[i].conf)
  {
    if block == [] then []
    else Offset(block[..|block| - 1], blockStartTime)
         + [Frame(block[|block| - 1].time + blockStartTime, block[|block| - 1].midi, block[|block| - 1].conf)]
  }

  /** The frames of consecutive blocks, each moved by its start time, in order. */
  function Concatenated(blocks: seq<seq<Frame>>, starts: seq<real>): seq<Frame>
    requires |starts| == |blocks|
  {
    if blocks == [] then []
    else Concatenated(blocks[..|blocks| - 1], starts[..|starts| - 1]) + Offset(blocks[|blocks| - 1], starts[|starts| - 1])
  }

  /** Walking two frame lists one after the other is walking their concatenation. */
  lemma {:induction false} SegmentFromAppend(s: Seg, a: seq<Frame>, b: seq<Frame>, threshold: real, minNoteLen: real)
    ensures SegmentFrom(s, a + b, threshold, minNoteLen)
            == SegmentFrom(SegmentFrom(s, a, threshold, minNoteLen), b, threshold, minNoteLen)
    decreases |b|
  {
    if b == [] {
      assert a + b == a;
    } else {
      assert (a + b)[..|a + b| - 1] == a + b[..|b| - 1];
      SegmentFromAppend(s, a, b[..|b| - 1], threshold, minNoteLen);
    }
  }

  lemma ConcatenatedSnoc(blocks: seq<seq<Frame>>, starts: seq<real>, i: nat)
    requires |starts| == |blocks| && i < |blocks|
    ensures Concatenated(blocks[..i + 1], starts[..i + 1]) == Concatenated(blocks[..i], starts[..i]) + Offset(blocks[i], starts[i])
  {
    assert blocks[..i + 1][..i] == blocks[..i] && starts[..i + 1][..i] == starts[..i];
  }

  lemma LastTimeAppend(a: seq<Frame>, b: seq<Frame>)
    ensures LastTime(a + b) == if b == [] then LastTime(a) else LastTime(b)
  {
    if b == [] {
      assert a + b == a;
    }
  }

  /** `StreamingPitchToMidi`: the segmenter whose fields carry the open note across blocks. */
  class StreamingPitchToMidi {
    const samplerate: int
    const threshold: real
    const minNoteLen: real
    var notes: seq<Note>
    var currentNote: Option<real>
    var currentOnset: Option<real>
    var currentConf: Option<real>
    var lastTime: real

    /** The three "current" fields are set and cleared together. */
    ghost predicate Valid()
      reads this
    {
      currentNote.Some? == currentOnset.Some? && currentNote.Some? == currentConf.Some?
    }

    /** The segmenter state the fields hold. */
    ghost function State(): Seg
      reads this
      requires Valid()
    {
      Seg(notes, if currentNote.Some? then Some(Active(currentNote.value, currentOnset.value)) else None)
    }

    constructor (samplerate: int, threshold: real, minNoteLen: real)
      ensures Valid() && State() == Initial && lastTime == 0.0
      ensures this.samplerate == samplerate && this.threshold == threshold && this.minNoteLen == minNoteLen
    {
      this.samplerate := samplerate;
      this.threshold := threshold;
      this.minNoteLen := minNoteLen;
      notes := [];
      currentNote, currentOnset, currentConf := None, None, None;
      lastTime := 0.0;
    }

    /** One frame of the `process_block` loop, on the fields. */
    method StepFrame(f: Frame)
      requires Valid()
      modifies this
      ensures Valid() && lastTime == old(lastTime)
      ensures State() == SegStep(old(State()), f, threshold, minNoteLen)
    {
      if f.conf >= threshold && 0.0 <= f.midi <= 127.0 {
        if currentNote.None? {
          currentNote, currentOnset, currentConf := Some(f.midi), Some(f.time), Some(f.conf);
        } else if (if f.midi - currentNote.value < 0.0 then currentNote.value - f.midi else f.midi - currentNote.value) > 0.5 {
          var duration := f.time - currentOnset.value;
          if duration >= minNoteLen {
            notes := notes + [Note(RoundHalfEven(currentNote.value), currentOnset.value, duration)];
          }
          currentNote, currentOnset, currentConf := Some(f.midi), Some(f.time), Some(f.conf);
        }
      } else {
        if currentNote.Some? {
          var duration := f.time - currentOnset.value;
          if duration >= minNoteLen {
            notes := notes + [Note(RoundHalfEven(currentNote.value), currentOnset.value, duration)];
          }
          currentNote, currentOnset, currentConf := None, None, None;
        }
      }
    }

    /** `process_block`: walk one block's frames, times offset by `blockStartTime`. */
    method ProcessBlock(block: seq<Frame>, blockStartTime: real)
      requires Valid()
      modifies this
      ensures Valid()
      ensures State() == SegmentFrom(old(State()), Offset(block, blockStartTime), threshold, minNoteLen)
      ensures lastTime == if block == [] then old(lastTime) else block[|block| - 1].time + blockStartTime
    {
      var frames := Offset(block, blockStartTime);
      ghost var s0 := State();
      for i := 0 to |frames|
        invariant Valid() && lastTime == old(lastTime)
        invariant State() == SegmentFrom(s0, frames[..i], threshold, minNoteLen)
      {
        assert frames[..i + 1][..i] == frames[..i];
        StepFrame(frames[i]);
      }
      assert frames[..|frames|] == frames;
      assert |frames| > 0 ==> frames[|frames| - 1].time == block[|block| - 1].time + blockStartTime;
      lastTime := if |frames| > 0 then frames[|frames| - 1].time else lastTime;
    }

    /** `get_midi_events`: close a still-open note at `last_time` and return every note. */
    method GetMidiEvents() returns (events: seq<Note>)
      requires Valid()
      modifies this
      ensures events == Finish(old(State()), old(lastTime), minNoteLen)
      ensures Valid() && State() == Seg(events, None) && lastTime == old(lastTime)
    {
      if currentNote.Some? && currentOnset.Some? {
        var duration := lastTime - currentOnset.value;
        if duration >= minNoteLen {
          notes := notes + [Note(RoundHalfEven(currentNote.value), currentOnset.value, duration)];
        }
        currentNote, currentOnset, currentConf := None, None, None;
      }
      events := notes;
    }
  }

  /**
   * The headline property: feeding consecutive blocks to `process_block` and
   * then calling `get_midi_events` gives what the batch form gives on the
   * concatenated, offset frames.
   */
  method StreamBlocks(blocks: seq<seq<Frame>>, starts: seq<real>, samplerate: int, threshold: real, minNoteLen: real)
    returns (events: seq<Note>)
    requires |starts| == |blocks|
    ensures events == Segment(Concatenated(blocks, starts), threshold, minNoteLen)
  {
    var m := new StreamingPitchToMidi(samplerate, threshold, minNoteLen);
    ghost var frames: seq<Frame> := [];
    for i := 0 to |blocks|
      invariant frames == Concatenated(blocks[..i], starts[..i])
      invariant m.Valid() && m.threshold == threshold && m.minNoteLen == minNoteLen
      invariant m.State() == SegmentFrom(Initial, frames, threshold, minNoteLen)
      invariant m.lastTime == LastTime(frames)
    {
      ghost var offset := Offset(blocks[i], starts[i]);
      assert offset != [] ==> LastTime(offset) == blocks[i][|blocks[i]| - 1].time + starts[i];
      m.ProcessBlock(blocks[i], starts[i]);
      ConcatenatedSnoc(blocks, starts, i);
      SegmentFromAppend(Initial, frames, offset, threshold, minNoteLen);
      LastTimeAppend(frames, offset);
      frames := frames + offset;
    }
    assert blocks[..|blocks|] == blocks && starts[..|starts|] == starts;
    events := m.GetMidiEvents();
  }
}
