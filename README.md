# llmjam core, modelled in Dafny

llmjam is a call-and-response jam. It listens for a phrase played into the microphone, turns it into MIDI notes and sends them to a language model as CSV lines. It decodes the model's streamed reply back into note events and plays them on a MIDI port, in time with a drum machine that runs alongside. This project models the four pieces of sequential logic under that plumbing and proves what each of them promises:

- **Sound-gated capture** (`audio_input.dfy`, module `AudioInput`). Given the RMS level of each block read from the microphone, it decides which blocks are recorded. Recording starts at the first block louder than the threshold. It stops after a run of quiet blocks, or when the block cap is reached. The list version and the generator version are two methods proved against one reference window.
- **Note segmenter** (`pitch_to_midi.dfy`, module `PitchToMidi`). This is the state machine that turns pitch frames `(time, midi, confidence)` into committed notes. It has three parts:
  - the batch `audio_to_midi`;
  - the streaming class `StreamingPitchToMidi`, which carries the open note across blocks;
  - a client loop, which proves that streaming consecutive blocks gives exactly the notes of the batch form over the concatenated frames.
- **CSV codec and stream decoder** (`llm_client.dfy`, module `LlmClient`, with Python's `str.strip`, `str.split`, `str.splitlines`, `int()`, `float()` and `str()`/`repr` of ints and floats in `pytext.dfy`, module `PyText`). It proves:
  - parsing the serialiser's output gives the events back;
  - wrong field counts are skipped and bad numbers raise;
  - the streamed reply's events depend only on the concatenated text, not on how the deltas were cut;
  - text after the last newline is never parsed.
- **Tempo, drums and playback** (`midi_output.dfy`, module `MidiOutput`). The module globals become the fields of the class `Jam`:
  - the tempo and its derived durations;
  - the jam flag and its epoch;
  - a clock `now`;
  - the MIDI port, as a trace of time-stamped `[status, note, velocity]` messages;
  - the drum sounds, as a trace of time-stamped triggers.

  It proves:
  - drum deadlines are computed from the epoch and never drift;
  - the kick/snare/hi-hat pattern;
  - bar quantisation bounds for batch and streamed playback;
  - sorting and in-place rebasing of start times;
  - the exact note-on/note-off sequence of each event.

`common.dfy` (module `Common`) holds `Option`/`Result` and two numeric conversions:
- Python's `int()` of a float, which truncates;
- `round()`, which rounds half to even.

Values are Dafny `real`s throughout. Python floats are modelled as exact reals, except in the CSV codec: there a float is its decimal text `Float(digits, places)`, and the text is parsed with integer arithmetic only. Clock readings, RMS levels, pitch frames and the times at which streamed events arrive are inputs.

Behaviour worth knowing:
- Synced batch playback waits for the bar *before* it sorts and rebases, so a batch without start times still waits and then raises.
- Each note of a chord gets its own note-on, and later its own note-off, in the order the notes are listed.
- `update_bpm` accepts any tempo. Zero stores the tempo and then raises on the division. A negative tempo is stored and used.
- The tempo globals are read and written without synchronisation. `stop_jam` lowers the flag and sends no message to the port.
- The stream decoder's buffer is a local of the generator `stream_llm_midi_response`. The model has one method for the inner `while '\n' in buffer` loop (`TakeLines`) and one for the loop over deltas (`DecodeStream`).
- Pitches, velocities and durations are not range-checked anywhere. A negative duration makes `time.sleep` raise after the event's note-ons were sent, and the model keeps exactly that.

## Model

| member | source | states |
|---|---|---|
| Common.Trunc | midi_output.py:110 | `int(x)` truncates toward zero: the result is the integer part of `x` for both signs |
| Common.RoundHalfEven | pitch_to_midi.py:60 | `int(round(x))` is within 0.5 of `x`, and a tie goes to the even integer |
| AudioInput.Readable | audio_input.py:55-62 | at most `max_blocks` blocks are read, none when the cap is negative, and all available blocks or exactly the cap otherwise |
| AudioInput.QuietRun | audio_input.py:73-82 | the silence counter after a block is zero exactly when that block is not strictly below the threshold |
| AudioInput.QuietRunIsRun | audio_input.py:73-82 | the counter counts the consecutive quiet blocks ending at the current one, and the block before that run is not quiet |
| AudioInput.FirstLoud | audio_input.py:65-70 | the trigger is the first block with RMS strictly above the threshold; every block before it is not loud |
| AudioInput.FirstLoudUnique | audio_input.py:65-70 | any loud block preceded only by non-loud blocks is the trigger |
| AudioInput.FirstStop | audio_input.py:73-80 | the stop is the first block after the trigger at which the silence counter reaches the needed count |
| AudioInput.FirstStopUnique | audio_input.py:73-80 | any stopping block preceded only by non-stopping ones is the stop block |
| AudioInput.Window | audio_input.py:62-82 | the recorded window lies within the blocks read |
| AudioInput.WindowMeaning | audio_input.py:62-85 | the window is empty exactly when no block read is loud; otherwise it opens at the first loud block, holds every block until the stop (trailing quiet blocks included), and ends right after the block that completes the silence run unless the cap came first |
| AudioInput.StoppedStaysStopped | audio_input.py:75-80 | once the gate has stopped, later blocks change nothing (the loop has broken) |
| AudioInput.RunGateIsExpected | audio_input.py:62-82 | the block-by-block counter-and-flag state machine is in the state the reference window predicts after every prefix |
| AudioInput.RecordedIsWindow | audio_input.py:62-86 | the state machine records exactly the reference window's blocks |
| AudioInput.CaptureOnSoundThenUntilSilence | audio_input.py:31-86 | the list version's loop returns the concatenated samples of the recorded window, empty when no block is loud |
| AudioInput.CaptureAudioBlocksOnSoundThenUntilSilence | audio_input.py:89-139 | the generator version's loop yields exactly the blocks the list version records |
| PitchToMidi.AudioToMidi | pitch_to_midi.py:30-87 | a sample rate other than 16000 and 44100 is rejected before any processing; otherwise the loop's notes are the segmenter fold over the frames, closed at the last frame's time |
| PitchToMidi.NotesOnlyGrow | pitch_to_midi.py:50-85 | committed notes are only ever appended to, never changed or removed |
| PitchToMidi.HeldNoteContinues | pitch_to_midi.py:51-56 | voiced frames within 0.5 of the open note change nothing: no note is emitted and the onset pitch and time are kept |
| PitchToMidi.JumpClosesAndReopens | pitch_to_midi.py:55-65 | a voiced frame more than 0.5 away closes the open note at that frame's time (kept only if it lasted at least the minimum, with the rounded onset pitch) and opens a new note at the same time |
| PitchToMidi.UnvoicedCloses | pitch_to_midi.py:66-76 | an unvoiced frame closes the open note at that frame's time (kept only if it lasted at least the minimum, with the rounded onset pitch) and leaves no note open; it changes nothing when none was open |
| PitchToMidi.SegmentFromLongEnough | pitch_to_midi.py:58 | every note the frame loop commits lasts at least the minimum length |
| PitchToMidi.SegmentLongEnough | pitch_to_midi.py:58-85 | every note of the output lasts at least the minimum length, including the final close |
| PitchToMidi.SegmentFromInOrder | pitch_to_midi.py:50-76 | with strictly increasing frame times, committed notes start in increasing order, none ends after the next begins, and the open note starts after them all |
| PitchToMidi.SegmentOrdered | pitch_to_midi.py:50-85 | with strictly increasing frame times, output notes have strictly increasing start times and none overlaps a later one |
| PitchToMidi.SegmentFromTraced | pitch_to_midi.py:50-76 | every committed note was opened by a voiced frame with its onset time and pitch and closed by a later frame that jumped or was unvoiced, and the open note was opened by a voiced frame |
| PitchToMidi.SegmentTraced | pitch_to_midi.py:50-85 | every output note was opened by a voiced frame with its onset time and rounded pitch, and ends either at a later frame that was unvoiced or jumped more than 0.5 away, or, for the note still open at the end, at the last frame's time |
| PitchToMidi.FinishIdempotent | pitch_to_midi.py:160-171 | closing again after the open note was closed gives the same list, so a second `get_midi_events` returns the same notes |
| PitchToMidi.Offset | pitch_to_midi.py:119 | a block's frame times are shifted by the block's start time; pitch and confidence are kept |
| PitchToMidi.SegmentFromAppend | pitch_to_midi.py:121-150 | the frame loop over two consecutive runs of frames is the loop over the first, continued over the second |
| PitchToMidi.LastTimeAppend | pitch_to_midi.py:151 | the last frame time of concatenated frames is that of the later run unless it is empty |
| PitchToMidi.StreamingPitchToMidi.constructor | pitch_to_midi.py:95-103 | the object starts with no notes, no open note, last time 0 and the given parameters |
| PitchToMidi.StreamingPitchToMidi.StepFrame | pitch_to_midi.py:122-150 | one frame moves the fields exactly as one step of the segmenter |
| PitchToMidi.StreamingPitchToMidi.ProcessBlock | pitch_to_midi.py:105-151 | the fields advance by the segmenter over the block's offset frames, and `last_time` moves only for a non-empty block |
| PitchToMidi.StreamingPitchToMidi.GetMidiEvents | pitch_to_midi.py:153-171 | the returned notes are the committed ones plus the open note closed at `last_time` if long enough, and the open note is cleared |
| PitchToMidi.StreamBlocks | pitch_to_midi.py:90-171 | feeding consecutive blocks to `process_block` and then calling `get_midi_events` gives exactly `audio_to_midi`'s notes over the concatenated offset frames |
| PyText.Strip | llm_client.py:99-100 | `str.strip()` removes exactly the leading and trailing white space: what it removes is white space and the result neither starts nor ends with any |
| PyText.IndexOf | llm_client.py:161 | the first occurrence of a character, or the length when there is none |
| PyText.SplitAvoids | llm_client.py:100 | no piece of `s.split(sep)` contains `sep` |
| PyText.JoinSplit | llm_client.py:100 | joining the pieces of `s.split(sep)` with `sep` gives `s` back |
| PyText.SplitJoin | llm_client.py:82 | splitting a `sep`-join of pieces that hold no `sep` gives the pieces back |
| PyText.SplitCount | llm_client.py:100 | `s.split(sep)` has one piece more than `s` has separators |
| PyText.SplitLines | llm_client.py:99 | no line of `splitlines()` contains a line boundary |
| PyText.SplitLinesJoin | llm_client.py:89 | `"\n".join(lines).splitlines()` gives back lines that are non-empty and hold no line boundary |
| PyText.FormatNat | llm_client.py:82 | a natural's decimal text is non-empty digits without leading zero |
| PyText.DigitsValueOfFormat | llm_client.py:82 | a natural's decimal text denotes that natural |
| PyText.ParseInt | llm_client.py:105-110 | text `int()` accepts contains a digit |
| PyText.ParseFormatInt | llm_client.py:82-84 | `int(str(i)) == i` for every integer |
| PyText.Normalize | llm_client.py:111-112 | every float has one canonical decimal form, and a canonical one is its own |
| PyText.NormalizeValue | llm_client.py:111-112 | normalising keeps a float's value |
| PyText.ParseFloat | llm_client.py:111-112 | a float that `float()` parses comes out in canonical form |
| PyText.ParseFormatFloat | llm_client.py:86-88 | `float(str(x))` is `x` in canonical form, and `x` itself when it is canonical, as Python's `repr` always is |
| PyText.ParseFloatOfInt | llm_client.py:86 | `float(str(i))` is the float `i.0` |
| PyText.ValueOfInt | llm_client.py:86 | the float `i.0` has the value `i` |
| LlmClient.Fields | llm_client.py:80-88 | every event has four fields |
| LlmClient.ParseInts | llm_client.py:105 | the chord list parses exactly when every piece does, and then gives one int per piece, in order |
| LlmClient.ParseNotes | llm_client.py:104-107 | a parsed notes field is a chord exactly when it contains `|`, with one note per `|`-piece and at least two |
| LlmClient.CollectOk | llm_client.py:98-114 | parsing succeeds exactly when no line raises, and gives at most one event per line |
| LlmClient.CollectSkip | llm_client.py:101-102 | a skipped line leaves the result as if it were absent |
| LlmClient.ParseLinesOk | llm_client.py:99-114 | the parser succeeds exactly when no line raises, and yields at most one event per line |
| LlmClient.SkipsWrongFieldCount | llm_client.py:100-102 | a line whose comma split does not give four fields is skipped silently |
| LlmClient.RefusedFieldRaises | llm_client.py:104-112 | a four-field line with a notes, velocity or time field that `int()`/`float()` refuses makes the whole parse raise |
| LlmClient.AsFloatValue | llm_client.py:86-87 | writing an int or float time and reading it back as a float keeps its value |
| LlmClient.ParseFormatNotes | llm_client.py:80-84 | a notes field reads back as the notes, a one-note list as that note |
| LlmClient.LineText | llm_client.py:88 | an event's line is non-empty, has no white space to strip, and splits on commas into its four fields |
| LlmClient.ParseFormatLine | llm_client.py:80-88 | an event's line parses back to the event, with the defaults filled in |
| LlmClient.CsvLines | llm_client.py:78-89 | the serialiser writes one line per event, and `strip().splitlines()` gives those lines back |
| LlmClient.CsvRoundTrip | llm_client.py:72-114 | parsing the serialiser's output gives every event back in order, with velocity 100, start 0 and duration 0.5 filled in, a one-note list as a single note and each time as the float its text denotes |
| LlmClient.CsvRoundTripComplete | llm_client.py:72-114 | for events with every key present and no chord of fewer than two notes, parsing the serialiser's output gives the same events field by field (times by value) |
| LlmClient.LineEvents | llm_client.py:162-174 | a complete line yields at most one event, none when it is blank; a non-blank line whose parse succeeds with events yields one, and any event it yields is the first the parser gives for it |
| LlmClient.Tail | llm_client.py:159-161 | what stays in the buffer holds no newline |
| LlmClient.LinesAndTail | llm_client.py:159-161 | the text is the complete lines followed by the unfinished tail |
| LlmClient.LinesAppend | llm_client.py:159-161 | the complete lines of appended text are those of the first part, then those of its tail continued by the second part |
| LlmClient.EventsAppend | llm_client.py:159-161 | the events of appended text are those of the first part, then those of its tail continued by the second part |
| LlmClient.LinesFirst | llm_client.py:161 | `buffer.split('\n', 1)` cuts off the first complete line and keeps the rest |
| LlmClient.DecodeFirst | llm_client.py:160-168 | the events of the buffer are those of its first line, then those of the rest |
| LlmClient.TailNeverParsed | llm_client.py:160-161 | text after the last newline is never parsed or yielded |
| LlmClient.CountLines | llm_client.py:160-161 | there is one complete line per newline |
| LlmClient.AtMostOnePerLine | llm_client.py:165-168 | the decoder yields at most one event per newline-ended line |
| LlmClient.TakeLines | llm_client.py:160-174 | the inner loop yields the events of every complete line in the buffer and leaves the unfinished tail, which holds no newline |
| LlmClient.DecodeStream | llm_client.py:152-174 | the deltas loop yields exactly the events of the concatenated text, however it was cut, skipping missing and empty deltas |
| MidiOutput.TempoRelations | midi_output.py:11-15 | at a positive tempo the beat is positive, a beat times the tempo is 60 seconds, a bar is four beats and eight eighths |
| MidiOutput.WaitUntil | midi_output.py:72-74 | a wait ends at the clock or at the target, whichever is later |
| MidiOutput.Accent | midi_output.py:77-85 | a beat in the bar from 0 to 3 has an accent, any other beat none |
| MidiOutput.PatternOfEighth | midi_output.py:75-85 | every eighth plays the hi-hat; even eighths also play the accent (kick on eighths 0 and 4 of the bar, snare on 2 and 6); odd eighths play only the hi-hat; all at the same time |
| MidiOutput.NoDrift | midi_output.py:70 | when the loop starts no later than the epoch, eighth `n` fires exactly at `start + n * eighth` |
| MidiOutput.TicksInOrder | midi_output.py:70-74 | eighths fire in order, never before the loop began or before their deadline, and each one fires at its deadline or, if that has passed, at once |
| MidiOutput.TicksCount | midi_output.py:75-86 | `count` eighths make `count + ceil(count/2)` drum hits |
| MidiOutput.BarCount | midi_output.py:109-110 | the truncated bar count is the number of whole bars elapsed |
| MidiOutput.NextBarBounds | midi_output.py:170-172 | the next bar boundary lies strictly after the clock and at most one bar ahead, a whole number of bars after the epoch |
| MidiOutput.SyncedStartBounds | midi_output.py:109-112 | synced batch playback starts a whole number of bars (at least three) after the epoch, strictly more than two and at most three bars ahead |
| MidiOutput.NoteOn | midi_output.py:134 | `0x90 | channel` is a status byte, `0x90 + channel` for the 16 MIDI channels |
| MidiOutput.NoteOff | midi_output.py:137 | `0x80 | channel` is a status byte, `0x80 + channel` for the 16 MIDI channels |
| MidiOutput.EventMessages | midi_output.py:128-137 | an event sends `[0x90 | ch, n, velocity]` for each of its notes in order and `[0x80 | ch, n, 0]` for the same notes in the same order, velocity defaulting to 100 |
| MidiOutput.UntimedAppend | midi_output.py:133-137 | the messages of two traces in a row are the messages of each, in order |
| MidiOutput.UntimedStamp | midi_output.py:133-137 | messages sent together are, untimed, the messages themselves |
| MidiOutput.PlayOneFacts | midi_output.py:123-137 | one event raises exactly when its duration is negative; it sends its note-ons, and its note-offs only when it does not raise; the clock ends at the wait plus the duration |
| MidiOutput.PerformComplete | midi_output.py:123-137 | a playback runs to its end exactly when no duration is negative, and then sends each event's note-ons and note-offs, before the next event's |
| MidiOutput.PerformStops | midi_output.py:123-137 | playback stops at the first negative duration, after that event's note-ons, having sent everything for the events before it |
| MidiOutput.PlayOneInTime | midi_output.py:124-137 | one event's messages are time-stamped in order between the clock before and after it |
| MidiOutput.PerformInTime | midi_output.py:123-137 | the whole trace is time-stamped in nondecreasing order and the clock never goes back |
| MidiOutput.EventOnTime | midi_output.py:178-189 | an event's note-ons go out at its target time on the playback's zero, or at once when that has passed: late events are played, never dropped |
| MidiOutput.InsertPermutes | midi_output.py:117 | inserting adds the event and loses nothing |
| MidiOutput.InsertSorted | midi_output.py:117 | inserting into a sorted list keeps it sorted by start time |
| MidiOutput.SortSorts | midi_output.py:117 | sorting orders the events by start time and is a permutation of them |
| MidiOutput.RebasedFacts | midi_output.py:118-121 | rebasing a sorted batch puts its first event at 0, keeps every gap and the order, leaves no start negative, and changes only start times |
| MidiOutput.PreparedStartsAtZero | midi_output.py:117-121 | a sorted and rebased batch starts at 0, has no negative start, and holds the same events |
| MidiOutput.Jam.constructor | midi_output.py:11-15 | the jam starts stopped at 95 bpm, with consistent derived durations and empty traces |
| MidiOutput.Jam.UpdateBpm | midi_output.py:195-200 | the tempo is stored; a non-zero tempo re-derives beat, eighth and bar consistently; zero raises and leaves them as they were; nothing else changes |
| MidiOutput.Jam.StartJam | midi_output.py:88-96 | starting records the epoch and raises the flag, and does nothing when the jam is already running |
| MidiOutput.Jam.StopJam | midi_output.py:98-101 | stopping lowers the flag and changes nothing else |
| MidiOutput.Jam.Sleep | midi_output.py:135 | `time.sleep(d)` moves the clock by `d`, and a negative `d` raises without moving it |
| MidiOutput.Jam.Wait | midi_output.py:113-116 | sleeping until a target moves the clock to it only when it lies ahead |
| MidiOutput.Jam.DrumBeatLoop | midi_output.py:66-86 | while the jam runs, the loop plays each eighth's pattern at its tick time, leaving tempo and flag alone; a stopped jam plays nothing |
| MidiOutput.Jam.Tick | midi_output.py:70-86 | one pass of the loop waits for eighth `n`'s deadline and plays its pattern |
| MidiOutput.Jam.SendAll | midi_output.py:133-134 | messages are appended to the trace in order at the current time |
| MidiOutput.Jam.PlayEvent | midi_output.py:124-137 | one event's wait, note-ons, sleep and note-offs |
| MidiOutput.Jam.WaitForEvent | midi_output.py:178-182 | an event waits for its arrival and then for its start time on the playback's zero |
| MidiOutput.Jam.PlayAll | midi_output.py:123-137 | the playback loop appends the performance of the events to the trace and stops at the first that raises |
| MidiOutput.Jam.PlayBatch | midi_output.py:117-137 | a missing start time raises before anything plays; otherwise the batch is sorted, rebased and played from now |
| MidiOutput.Jam.SendMidiSequence | midi_output.py:103-137 | a stopped jam plays the batch unsynced; a running one first waits until two bars after the next bar boundary |
| MidiOutput.Jam.WaitForSync | midi_output.py:109-116 | the synced wait ends at two bars after the next bar boundary, or at once when that has passed |
| MidiOutput.Jam.PlayUnsynced | midi_output.py:139-161 | the batch is sorted, rebased and played from the time of the call |
| MidiOutput.Jam.PlayMidiEventsStreaming | midi_output.py:163-193 | only the first event waits, and only to the next bar boundary when the jam runs; it plays at once and fixes the zero the later events are timed on |
| MidiOutput.Jam.WaitForStream | midi_output.py:167-177 | the first streamed event waits for its arrival, then for the next bar boundary when the jam runs |
| MidiOutput.Jam.RebaseInPlace | midi_output.py:118-121 | the array's start times are moved back by the first event's start, in place |
| MidiOutput.StreamStartBounds | midi_output.py:168-176 | a stopped jam does not wait for the first streamed event; a running one waits to the next bar boundary, strictly later and at most one bar ahead |
| MidiOutput.StreamFirstPlaysAtOnce | midi_output.py:176-182 | the first streamed event plays as soon as the wait for it is over |
| MidiOutput.FailedStays | midi_output.py:135 | once an event has raised, later events change nothing (the loop has ended) |

## Left out

- The `crepe` pitch predictor and the `69 + 12*log2(f/440)` conversion are not modelled. Frames `(time, midi, confidence)` are inputs.
- `sounddevice` streams and the numpy RMS are not modelled. A block is its samples with its RMS given. The microphone stream, which is endless, is a finite sequence, so the loops also stop when it ends.
- rtmidi port set-up and selection, and the sending of bytes, are not modelled. The MIDI port is the trace `Jam.midi`.
- pygame sound loading and playing are not modelled, and neither is `pygame.mixer.quit` in `stop_jam`. The drums are the trace `Jam.drums`.
- `time.time` and `time.sleep` are the field `Jam.now`, moved by `Sleep`. The time at which each streamed event arrives is an input (`Arrival.at`).
- Threads are not modelled: the drum thread, the `jam_running` event shared with it, the keyboard listener, and the interleaving of `update_bpm` and playback with the drum loop. `Jam.DrumBeatLoop` runs a given number of eighths on its own, with the tempo fixed.
- The language-model client, provider choice, prompt text, network calls and `print` output are not modelled. The stream is the sequence of its deltas, with a missing `content` as `None`.
- `llmjam.py`, the main loop, and the MIDI port scripts are not part of this model.
- Floating-point rounding is not modelled: times, durations, tempo, RMS and pitch are exact reals. The CSV codec's numbers are exact decimal texts.
- `PyText.ParseFloat`: `inf`/`nan`, underscores and non-ASCII digits are not accepted. `str()` of a float is modelled as the plain shortest decimal, so floats that Python writes with an exponent are not covered.
- `PyText.ParseInt`: underscores and non-ASCII digits are not accepted.
- `PyText.Normalize`: `-0.0` and `0.0` are the same float.
- `LlmClient.CsvRoundTrip`: an event without a `note` key (a `KeyError`) is not modelled, because every event has notes. The round trip requires every chord to have at least one note: an empty list serialises to an empty field, which `int()` refuses.
- `MidiOutput.NoteOn` and `MidiOutput.NoteOff`: the channel is a byte (`bv8`); an `int` channel of 256 or more is not modelled.
- Note numbers and velocities are unbounded `int`s. The port's refusal of out-of-range bytes is not modelled.
- `MidiOutput.Jam.PlayBatch`: the caller's event dicts are not mutated in the model. Rebasing acts in place on a fresh array of the sorted events (`Jam.RebaseInPlace`), so aliasing is not modelled: the caller seeing its dicts changed, and one dict listed twice being rebased twice.
- `MidiOutput.SortSorts`: proves sorted order and permutation. It does not prove that `sorted` is stable, although `SortByStart` is a stable insertion sort.
- `PitchToMidi.StreamingPitchToMidi.constructor`: the sample rate is stored but never checked, as in the source.
- `AudioInput.CaptureOnSoundThenUntilSilence` and `AudioInput.CaptureAudioBlocksOnSoundThenUntilSilence`: a `blocksize` of zero or less is excluded by a precondition; at zero the source raises `ZeroDivisionError`.
- The default arguments of the two capture functions are not modelled; every argument is a parameter. The defaults are `samplerate=16000`, `threshold=0.01`, `blocksize=1024` and `max_record=30.0` for both, with `silence_duration=1.0` for the list version and `0.5` for the generator (audio_input.py:31-37 and 89-95).
