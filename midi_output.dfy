/**
 * The tempo clock, the drum machine and note playback of `midi_output.py`.
 *
 * Wall-clock time is the field `now` of `Jam`, moved forward only by
 * `Sleep` (and by waiting for a streamed event to arrive). The MIDI port is
 * a trace of time-stamped `[status, note, velocity]` messages and the drum
 * sounds a trace of time-stamped triggers.
 */
module MidiOutput {
  import opened Common
  import LlmClient

  type Notes = LlmClient.Notes

  const InitialBpm: real := 95.0
  const BeatsPerBar: int := 4
  const DefaultDuration: real := 0.5

  // ---- tempo ----

  /** The durations `update_bpm` derives from a tempo. */
  function BeatDuration(bpm: real): real
    requires bpm != 0.0
  {
    60.0 / bpm
  }

  /** At a positive tempo a bar is four beats and eight eighths, 240 seconds per beat-per-minute. */
  lemma TempoRelations(bpm: real)
    requires bpm > 0.0
    ensures BeatDuration(bpm) > 0.0
    ensures BeatDuration(bpm) * bpm == 60.0
    ensures (BeatDuration(bpm) * BeatsPerBar as real) * bpm == 240.0
    ensures BeatDuration(bpm) / 2.0 * 8.0 == BeatDuration(bpm) * BeatsPerBar as real
  {
    assert BeatDuration(bpm) * bpm == 60.0;
  }

  // ---- drum machine ----

  datatype Drum = Kick | Snare | HiHat

  datatype Hit = Hit(drum: Drum, at: real)

  /** The clock after a wait until `target`, sleeping only when it lies ahead. */
  function WaitUntil(clock: real, target: real): (r: real)
    ensures r >= clock && r >= target
    ensures r == clock || r == target
  {
    if target - clock > 0.0 then target else clock
  }

  /** The accent of a quarter-note beat: kick on beats 0 and 2, snare on 1 and 3. */
  function Accent(beatInBar: int): (r: Option<Drum>)
    ensures 0 <= beatInBar < BeatsPerBar <==> r.Some?
  {
    if beatInBar == 0 then Some(Kick)
    else if beatInBar == 1 then Some(Snare)
    else if beatInBar == 2 then Some(Kick)
    else if beatInBar == 3 then Some(Snare)
    else None
  }

  /** What eighth note `n` plays: the hi-hat, and on even `n` the beat's accent. */
  function Pattern(n: nat, at: real): seq<Hit>
  {
    var accent := if n % 2 == 0 then Accent((n / 2) % BeatsPerBar) else None;
    [Hit(HiHat, at)] + (if accent.Some? then [Hit(accent.value, at)] else [])
  }

  /** Every eighth plays the hi-hat; kicks fall on eighths 0 and 4 of a bar, snares on 2 and 6. */
  lemma PatternOfEighth(n: nat, at: real)
    ensures Pattern(n, at)[0] == Hit(HiHat, at)
    ensures |Pattern(n, at)| == (if n % 2 == 0 then 2 else 1)
    ensures n % 8 == 0 || n % 8 == 4 ==> Pattern(n, at)[1] == Hit(Kick, at)
    ensures n % 8 == 2 || n % 8 == 6 ==> Pattern(n, at)[1] == Hit(Snare, at)
    ensures forall h :: h in Pattern(n, at) ==> h.at == at
  {
    var b := (n / 2) % BeatsPerBar;
    if n % 2 == 0 {
      assert b == (n % 8) / 2;
    }
  }

  /**
   * When eighth note `n` fires: the loop computes its deadline afresh from the
   * jam's start as `start + n * eighth` and sleeps only if that is still ahead
   * of the clock left by the eighth before.
   */
  function TickTime(start: real, eighth: real, clock: real, n: nat): real
  {
    WaitUntil(if n == 0 then clock else TickTime(start, eighth, clock, n - 1), start + n as real * eighth)
  }

  /** The hits of the first `count` eighth notes. */
  function Ticks(start: real, eighth: real, clock: real, count: nat): seq<Hit>
  {
    if count == 0 then []
    else Ticks(start, eighth, clock, count - 1) + Pattern(count - 1, TickTime(start, eighth, clock, count - 1))
  }

  lemma TickStep(start: real, eighth: real, clock: real, n: nat)
    ensures TickTime(start, eighth, clock, n) ==
      WaitUntil(if n == 0 then clock else TickTime(start, eighth, clock, n - 1), start + n as real * eighth)
    ensures Ticks(start, eighth, clock, n + 1) == Ticks(start, eighth, clock, n) + Pattern(n, TickTime(start, eighth, clock, n))
  {
  }

  /**
   * No drift: a loop that starts by the jam's start time fires every eighth
   * exactly on its deadline, however many came before.
   */
  lemma {:induction false} NoDrift(start: real, eighth: real, clock: real, n: nat)
    requires clock <= start && eighth >= 0.0
    ensures TickTime(start, eighth, clock, n) == start + n as real * eighth
  {
    if n > 0 {
      NoDrift(start, eighth, clock, n - 1);
      assert start + (n - 1) as real * eighth <= start + n as real * eighth;
    }
  }

  /**
   * A late loop catches up: eighth `n` never fires before its deadline, and
   * fires on the later of its deadline and the eighth before it.
   */
  lemma {:induction false} TicksInOrder(start: real, eighth: real, clock: real, n: nat)
    ensures n > 0 ==> TickTime(start, eighth, clock, n - 1) <= TickTime(start, eighth, clock, n)
    ensures TickTime(start, eighth, clock, n) >= clock
    ensures TickTime(start, eighth, clock, n) >= start + n as real * eighth
    ensures TickTime(start, eighth, clock, n) == start + n as real * eighth ||
            TickTime(start, eighth, clock, n) == (if n == 0 then clock else TickTime(start, eighth, clock, n - 1))
  {
    if n > 0 {
      TicksInOrder(start, eighth, clock, n - 1);
    }
  }

  /** The first `count` eighths give `count` hi-hats and one accent per even eighth. */
  lemma {:induction false} TicksCount(start: real, eighth: real, clock: real, count: nat)
    ensures |Ticks(start, eighth, clock, count)| == count + (count + 1) / 2
  {
    if count > 0 {
      TicksCount(start, eighth, clock, count - 1);
      PatternOfEighth(count - 1, TickTime(start, eighth, clock, count - 1));
    }
  }

  // ---- bar quantisation ----

  /** The start of the bar after the one the clock is in, `int()` truncating the bar count. */
  function NextBar(start: real, clock: real, bar: real): real
    requires bar != 0.0
  {
    start + (Trunc((clock - start) / bar) + 1) as real * bar
  }

  /** The bar count behind `NextBar` bounds the elapsed time. */
  lemma BarCount(elapsed: real, bar: real)
    requires bar > 0.0 && elapsed >= 0.0
    ensures Trunc(elapsed / bar) >= 0
    ensures Trunc(elapsed / bar) as real * bar <= elapsed
    ensures elapsed < (Trunc(elapsed / bar) + 1) as real * bar
    ensures (Trunc(elapsed / bar) + 1) as real * bar <= elapsed + bar
  {
    var q := elapsed / bar;
    DivBack(elapsed, bar);
    var c := Trunc(q);
    Lower(elapsed, bar, q, c as real);
    Upper(elapsed, bar, q, (c + 1) as real);
    PlusBar(elapsed, bar, c as real);
  }

  lemma DivBack(x: real, y: real)
    requires y > 0.0 && x >= 0.0
    ensures x / y >= 0.0 && (x / y) * y == x
  {
  }

  lemma Lower(e: real, bar: real, q: real, c: real)
    requires bar > 0.0 && q * bar == e && c <= q
    ensures c * bar <= e
  {
    MulMono(c, q, bar);
  }

  lemma Upper(e: real, bar: real, q: real, d: real)
    requires bar > 0.0 && q * bar == e && q < d
    ensures e < d * bar
  {
    MulStrict(q, d, bar);
  }

  lemma PlusBar(e: real, bar: real, c: real)
    requires c * bar <= e
    ensures (c + 1.0) * bar <= e + bar
  {
    Distribute(c, bar);
  }

  lemma Distribute(c: real, bar: real)
    ensures (c + 1.0) * bar == c * bar + bar
  {
  }

  lemma MulMono(x: real, y: real, z: real)
    requires x <= y && z > 0.0
    ensures x * z <= y * z
  {
  }

  lemma MulStrict(x: real, y: real, z: real)
    requires x < y && z > 0.0
    ensures x * z < y * z
  {
  }

  predicate IsWhole(x: real)
  {
    x.Floor as real == x
  }

  lemma DivExact(x: real, k: real, bar: real)
    requires bar != 0.0 && x == k * bar
    ensures x / bar == k
  {
  }

  lemma AddTwoBars(k: real, bar: real)
    ensures (k + 2.0) * bar == k * bar + 2.0 * bar
  {
  }

  /** The next bar boundary lies strictly after the clock and at most one bar ahead, a whole number of bars after the start. */
  lemma NextBarBounds(start: real, clock: real, bar: real)
    requires bar > 0.0 && clock >= start
    ensures clock < NextBar(start, clock, bar) <= clock + bar
    ensures var bars := (NextBar(start, clock, bar) - start) / bar; IsWhole(bars) && bars >= 1.0
  {
    var e := clock - start;
    var c := Trunc(e / bar);
    BarCount(e, bar);
    var next := NextBar(start, clock, bar);
    var k := (c + 1) as real;
    assert next - start == k * bar;
    DivExact(next - start, k, bar);
    assert k.Floor == c + 1;
  }

  /** `send_midi_sequence` starts two bars after the next bar boundary. */
  function SyncedStart(start: real, clock: real, bar: real): real
    requires bar != 0.0
  {
    NextBar(start, clock, bar) + 2.0 * bar
  }

  /** Batch playback starts a whole number of bars after the jam's start, between two and three bars ahead. */
  lemma SyncedStartBounds(start: real, clock: real, bar: real)
    requires bar > 0.0 && clock >= start
    ensures clock + 2.0 * bar < SyncedStart(start, clock, bar) <= clock + 3.0 * bar
    ensures var bars := (SyncedStart(start, clock, bar) - start) / bar; IsWhole(bars) && bars >= 3.0
  {
    NextBarBounds(start, clock, bar);
    var c := Trunc((clock - start) / bar) + 1;
    var k := c as real;
    var next := NextBar(start, clock, bar);
    var synced := SyncedStart(start, clock, bar);
    assert next - start == k * bar;
    AddTwoBars(k, bar);
    assert synced - start == (k + 2.0) * bar;
    DivExact(synced - start, k + 2.0, bar);
    assert (k + 2.0).Floor == c + 2;
  }

  // ---- events and messages ----

  /** A note event dict: `start_time`, `velocity` and `duration` may be missing. */
  datatype Event = Event(notes: Notes, velocity: Option<int>, startTime: Option<real>, duration: Option<real>)

  function StartOf(e: Event): real { GetOr(e.startTime, 0.0) }

  function Velocity(e: Event): int { GetOr(e.velocity, DefaultVelocity) }

  function Duration(e: Event): real { GetOr(e.duration, DefaultDuration) }

  /** A note that is not a list is played as a list of one. */
  function NoteList(n: Notes): (r: seq<int>)
    ensures n.Single? ==> r == [n.n]
  {
    match n
    case Single(x) => [x]
    case Chord(xs) => xs
  }

  datatype Message = Message(status: int, note: int, velocity: int)

  datatype Sent = Sent(message: Message, at: real)

  /** `0x90 | channel`. */
  function NoteOn(channel: bv8): (r: int)
    ensures 0x90 <= r < 0x100
    ensures channel < 16 ==> r == 0x90 + channel as int
  {
    (0x90 | channel) as int
  }

  /** `0x80 | channel`. */
  function NoteOff(channel: bv8): (r: int)
    ensures 0x80 <= r < 0x100
    ensures channel < 16 ==> r == 0x80 + channel as int
  {
    (0x80 | channel) as int
  }

  /** One note-on per note, in the event's order, at its velocity. */
  function Ons(e: Event, channel: bv8): (r: seq<Message>)
    ensures |r| == |NoteList(e.notes)|
  {
    var ns := NoteList(e.notes);
    seq(|ns|, k requires 0 <= k < |ns| => Message(NoteOn(channel), ns[k], Velocity(e)))
  }

  /** One note-off per note, in the same order, at velocity 0. */
  function Offs(e: Event, channel: bv8): (r: seq<Message>)
    ensures |r| == |NoteList(e.notes)|
  {
    var ns := NoteList(e.notes);
    seq(|ns|, k requires 0 <= k < |ns| => Message(NoteOff(channel), ns[k], 0))
  }

  /**
   * An event's messages: `[0x90 | channel, note, velocity]` for each of its
   * notes in order, then `[0x80 | channel, note, 0]` for the same notes in the
   * same order; a missing velocity is 100.
   */
  lemma EventMessages(e: Event, channel: bv8)
    ensures var ns := NoteList(e.notes);
      |Ons(e, channel)| == |ns| && |Offs(e, channel)| == |ns| &&
      (forall k :: 0 <= k < |ns| ==>
        Ons(e, channel)[k] == Message(NoteOn(channel), ns[k], GetOr(e.velocity, 100)) &&
        Offs(e, channel)[k] == Message(NoteOff(channel), ns[k], 0))
  {
    var ns := NoteList(e.notes);
    forall k | 0 <= k < |ns|
      ensures Ons(e, channel)[k] == Message(NoteOn(channel), ns[k], Velocity(e))
      ensures Offs(e, channel)[k] == Message(NoteOff(channel), ns[k], 0)
    {
    }
  }

  function Stamp(ms: seq<Message>, at: real): (r: seq<Sent>)
    ensures |r| == |ms|
  {
    seq(|ms|, k requires 0 <= k < |ms| => Sent(ms[k], at))
  }

  /** The messages of a trace without their times. */
  function Untimed(sent: seq<Sent>): (r: seq<Message>)
    ensures |r| == |sent|
  {
    seq(|sent|, k requires 0 <= k < |sent| => sent[k].message)
  }

  lemma UntimedAppend(a: seq<Sent>, b: seq<Sent>)
    ensures Untimed(a + b) == Untimed(a) + Untimed(b)
  {
    var c := a + b;
    assert forall k :: 0 <= k < |c| ==> c[k] == if k < |a| then a[k] else b[k - |a|];
    assert forall k :: 0 <= k < |c| ==> Untimed(c)[k] == (Untimed(a) + Untimed(b))[k];
  }

  lemma UntimedStamp(ms: seq<Message>, at: real)
    ensures Untimed(Stamp(ms, at)) == ms
  {
    assert forall k :: 0 <= k < |ms| ==> Untimed(Stamp(ms, at))[k] == ms[k];
  }

  /** An event as the playback loop sees it: what arrived, and when. */
  datatype Arrival = Arrival(event: Event, at: real)

  /** The messages sent for some playback, the clock after it, and whether it ran to its end. */
  datatype Run = Run(sent: seq<Sent>, clock: real, ok: bool)

  /**
   * One event of a playback whose zero is `zero`: wait for the event and for its
   * start time, send the note-ons, sleep for its duration (a negative one raises
   * before any note-off), then send the note-offs.
   */
  function PlayOne(x: Arrival, channel: bv8, zero: real, clock: real): Run
  {
    var t := WaitUntil(WaitUntil(clock, x.at), zero + StartOf(x.event));
    var ons := Stamp(Ons(x.event, channel), t);
    var d := Duration(x.event);
    if d < 0.0 then Run(ons, t, false)
    else Run(ons + Stamp(Offs(x.event, channel), t + d), t + d, true)
  }

  /**
   * One event raises exactly when its duration is negative; it sends its
   * note-ons, and its note-offs only when it does not raise; the clock ends
   * after the wait plus the duration.
   */
  lemma PlayOneFacts(x: Arrival, channel: bv8, zero: real, clock: real)
    ensures var r := PlayOne(x, channel, zero, clock);
      var t := WaitUntil(WaitUntil(clock, x.at), zero + StartOf(x.event));
      r.ok == (Duration(x.event) >= 0.0) &&
      Untimed(r.sent) == Ons(x.event, channel) + (if r.ok then Offs(x.event, channel) else []) &&
      r.clock == t + (if r.ok then Duration(x.event) else 0.0)
  {
    var t := WaitUntil(WaitUntil(clock, x.at), zero + StartOf(x.event));
    var ons := Stamp(Ons(x.event, channel), t);
    UntimedStamp(Ons(x.event, channel), t);
    var d := Duration(x.event);
    if d >= 0.0 {
      var offs := Stamp(Offs(x.event, channel), t + d);
      UntimedStamp(Offs(x.event, channel), t + d);
      UntimedAppend(ons, offs);
    }
  }

  /** A whole playback: event after event, stopping at the first that raises. */
  function Perform(xs: seq<Arrival>, channel: bv8, zero: real, clock: real): Run
  {
    if xs == [] then Run([], clock, true)
    else
      var before := Perform(xs[..|xs| - 1], channel, zero, clock);
      if !before.ok then before
      else
        var last := PlayOne(xs[|xs| - 1], channel, zero, before.clock);
        Run(before.sent + last.sent, last.clock, last.ok)
  }

  /** Each event's note-ons then its note-offs, event after event. */
  function AllMessages(xs: seq<Arrival>, channel: bv8): seq<Message>
  {
    if xs == [] then []
    else AllMessages(xs[..|xs| - 1], channel) + Ons(xs[|xs| - 1].event, channel) + Offs(xs[|xs| - 1].event, channel)
  }

  predicate NoNegativeDuration(xs: seq<Arrival>)
  {
    forall k :: 0 <= k < |xs| ==> Duration(xs[k].event) >= 0.0
  }

  /**
   * A playback runs to the end exactly when no duration is negative, and then
   * sends every event's note-ons and note-offs in order: no event is dropped,
   * however late it is.
   */
  lemma {:induction false} PerformComplete(xs: seq<Arrival>, channel: bv8, zero: real, clock: real)
    ensures Perform(xs, channel, zero, clock).ok <==> NoNegativeDuration(xs)
    ensures Perform(xs, channel, zero, clock).ok ==>
      Untimed(Perform(xs, channel, zero, clock).sent) == AllMessages(xs, channel)
    decreases |xs|
  {
    if xs != [] {
      var init := xs[..|xs| - 1];
      PerformComplete(init, channel, zero, clock);
      var before := Perform(init, channel, zero, clock);
      assert forall k :: 0 <= k < |init| ==> init[k] == xs[k];
      if before.ok {
        var last := PlayOne(xs[|xs| - 1], channel, zero, before.clock);
        PlayOneFacts(xs[|xs| - 1], channel, zero, before.clock);
        UntimedAppend(before.sent, last.sent);
      } else {
        assert !NoNegativeDuration(init);
      }
    }
  }

  /** The first event that raises ends the playback after its note-ons: nothing of any later event is sent. */
  lemma {:induction false} PerformStops(xs: seq<Arrival>, channel: bv8, zero: real, clock: real, i: nat)
    requires i < |xs| && Duration(xs[i].event) < 0.0 && NoNegativeDuration(xs[..i])
    ensures !Perform(xs, channel, zero, clock).ok
    ensures Untimed(Perform(xs, channel, zero, clock).sent) == AllMessages(xs[..i], channel) + Ons(xs[i].event, channel)
    decreases |xs|
  {
    var init := xs[..|xs| - 1];
    if i < |xs| - 1 {
      assert init[..i] == xs[..i] && init[i] == xs[i];
      PerformStops(init, channel, zero, clock, i);
    } else {
      assert init == xs[..i];
      PerformComplete(init, channel, zero, clock);
      var before := Perform(init, channel, zero, clock);
      var last := PlayOne(xs[i], channel, zero, before.clock);
      PlayOneFacts(xs[i], channel, zero, before.clock);
      UntimedAppend(before.sent, last.sent);
    }
  }

  predicate Ordered(sent: seq<Sent>, from: real, until: real)
  {
    (forall k :: 0 <= k < |sent| ==> from <= sent[k].at <= until) &&
    (forall j, k :: 0 <= j < k < |sent| ==> sent[j].at <= sent[k].at)
  }

  lemma OrderedAppend(a: seq<Sent>, b: seq<Sent>, from: real, mid: real, until: real)
    requires from <= mid <= until
    requires Ordered(a, from, mid) && Ordered(b, mid, until)
    ensures Ordered(a + b, from, until)
  {
    var c := a + b;
    assert forall k :: 0 <= k < |c| ==> c[k] == if k < |a| then a[k] else b[k - |a|];
  }

  /** One event's messages go out in time order, between the clocks before and after it. */
  lemma PlayOneInTime(x: Arrival, channel: bv8, zero: real, clock: real)
    ensures var r := PlayOne(x, channel, zero, clock); r.clock >= clock && Ordered(r.sent, clock, r.clock)
  {
    var t := WaitUntil(WaitUntil(clock, x.at), zero + StartOf(x.event));
    var ons := Stamp(Ons(x.event, channel), t);
    var r := PlayOne(x, channel, zero, clock);
    if Duration(x.event) >= 0.0 {
      var offs := Stamp(Offs(x.event, channel), t + Duration(x.event));
      assert r.sent == ons + offs;
      OrderedAppend(ons, offs, clock, t, t + Duration(x.event));
    } else {
      assert r.sent == ons;
    }
  }

  /** The clock never runs backwards: messages go out in time order, none before the playback began. */
  lemma {:induction false} PerformInTime(xs: seq<Arrival>, channel: bv8, zero: real, clock: real)
    ensures var r := Perform(xs, channel, zero, clock); r.clock >= clock && Ordered(r.sent, clock, r.clock)
    decreases |xs|
  {
    if xs != [] {
      var init := xs[..|xs| - 1];
      PerformInTime(init, channel, zero, clock);
      var before := Perform(init, channel, zero, clock);
      if before.ok {
        var x := xs[|xs| - 1];
        var last := PlayOne(x, channel, zero, before.clock);
        PlayOneInTime(x, channel, zero, before.clock);
        OrderedAppend(before.sent, last.sent, clock, before.clock, last.clock);
      }
    }
  }

  /** An event waits for its start time on the playback's zero, but an event already due plays at once. */
  lemma EventOnTime(x: Arrival, channel: bv8, zero: real, clock: real)
    ensures var r := PlayOne(x, channel, zero, clock);
      forall k :: 0 <= k < |Ons(x.event, channel)| ==>
        r.sent[k].at == WaitUntil(WaitUntil(clock, x.at), zero + StartOf(x.event))
  {
  }

  /** Batch playback: every event has been there since the playback began. */
  function Ready(es: seq<Event>, at: real): (r: seq<Arrival>)
    ensures |r| == |es| && forall k :: 0 <= k < |r| ==> r[k] == Arrival(es[k], at)
  {
    seq(|es|, k requires 0 <= k < |es| => Arrival(es[k], at))
  }

  // ---- sorting and rebasing ----

  predicate HasStart(es: seq<Event>)
  {
    forall k :: 0 <= k < |es| ==> es[k].startTime.Some?
  }

  predicate SortedByStart(es: seq<Event>)
  {
    forall j, k :: 0 <= j < k < |es| ==> StartOf(es[j]) <= StartOf(es[k])
  }

  /** Puts `e` after every element that does not start later than it. */
  function Insert(e: Event, s: seq<Event>): (r: seq<Event>)
    ensures |r| == |s| + 1
  {
    if s == [] then [e]
    else if StartOf(s[0]) > StartOf(e) then [e] + s
    else [s[0]] + Insert(e, s[1..])
  }

  /** Inserting adds `e` and loses nothing. */
  lemma {:induction false} InsertPermutes(e: Event, s: seq<Event>)
    ensures multiset(Insert(e, s)) == multiset(s) + multiset{e}
  {
    if s != [] && StartOf(s[0]) <= StartOf(e) {
      InsertPermutes(e, s[1..]);
      assert s == [s[0]] + s[1..];
    }
  }

  /** Inserting into a sorted list keeps it sorted. */
  lemma {:induction false} InsertSorted(e: Event, s: seq<Event>)
    requires SortedByStart(s)
    ensures SortedByStart(Insert(e, s))
    ensures forall k :: 0 <= k < |Insert(e, s)| ==> StartOf(Insert(e, s)[k]) >= Least(e, s)
  {
    if s != [] && StartOf(s[0]) <= StartOf(e) {
      InsertSorted(e, s[1..]);
      var rest := Insert(e, s[1..]);
      assert Least(e, s[1..]) >= StartOf(s[0]);
      assert Insert(e, s) == [s[0]] + rest;
    }
  }

  /** The earliest start among `e` and the elements of sorted `s`. */
  function Least(e: Event, s: seq<Event>): real
  {
    if s == [] || StartOf(e) < StartOf(s[0]) then StartOf(e) else StartOf(s[0])
  }

  /** `sorted(events, key=start_time)`: a stable insertion sort. */
  function SortByStart(es: seq<Event>): (r: seq<Event>)
    ensures |r| == |es|
  {
    if es == [] then [] else Insert(es[|es| - 1], SortByStart(es[..|es| - 1]))
  }

  /** Sorting orders the events by start time and keeps every one of them. */
  lemma {:induction false} SortSorts(es: seq<Event>)
    ensures SortedByStart(SortByStart(es))
    ensures multiset(SortByStart(es)) == multiset(es)
  {
    if es != [] {
      var init := es[..|es| - 1];
      SortSorts(init);
      InsertSorted(es[|es| - 1], SortByStart(init));
      InsertPermutes(es[|es| - 1], SortByStart(init));
      assert es == init + [es[|es| - 1]];
    }
  }

  /** Every start time moved back by `base`; nothing else of an event changes. */
  function Shift(es: seq<Event>, base: real): (r: seq<Event>)
    ensures |r| == |es|
  {
    seq(|es|, k requires 0 <= k < |es| => es[k].(startTime := Some(StartOf(es[k]) - base)))
  }

  /** `event['start_time'] -= base_time` for every event, the base being the first one's start. */
  function Rebased(es: seq<Event>): (r: seq<Event>)
    ensures |r| == |es|
  {
    if es == [] then [] else Shift(es, StartOf(es[0]))
  }

  /**
   * Rebasing a sorted batch puts its first event at 0, keeps every gap and the
   * order, makes no start negative and changes only start times.
   */
  lemma RebasedFacts(es: seq<Event>)
    requires SortedByStart(es) && es != []
    ensures var r := Rebased(es);
      StartOf(r[0]) == 0.0 &&
      SortedByStart(r) &&
      (forall k :: 0 <= k < |r| ==> StartOf(r[k]) >= 0.0) &&
      (forall j, k :: 0 <= j < |r| && 0 <= k < |r| ==> StartOf(r[k]) - StartOf(r[j]) == StartOf(es[k]) - StartOf(es[j])) &&
      (forall k :: 0 <= k < |r| ==>
        r[k].notes == es[k].notes && r[k].velocity == es[k].velocity && r[k].duration == es[k].duration)
  {
    var r := Rebased(es);
    assert forall k :: 0 <= k < |r| ==> StartOf(r[k]) == StartOf(es[k]) - StartOf(es[0]);
  }

  /** The batch as it is played: sorted, then rebased. */
  function Prepared(es: seq<Event>): seq<Event>
  {
    Rebased(SortByStart(es))
  }

  /** The first event of a batch plays at the playback's start, if nothing arrives late. */
  lemma PreparedStartsAtZero(es: seq<Event>)
    requires es != []
    ensures StartOf(Prepared(es)[0]) == 0.0
    ensures forall k :: 0 <= k < |es| ==> StartOf(Prepared(es)[k]) >= 0.0
    ensures multiset(SortByStart(es)) == multiset(es)
  {
    var s := SortByStart(es);
    SortSorts(es);
    RebasedFacts(s);
  }

  // ---- the jam ----

  datatype Outcome = Done | MissingStartTime | NegativeSleep

  /** The module's globals: tempo, the jam flag and epoch, the clock and the two output traces. */
  class Jam {
    var bpm: real
    var beat: real
    var eighth: real
    var bar: real
    var running: bool
    var startTime: real
    var now: real
    var midi: seq<Sent>
    var drums: seq<Hit>

    /** The derived durations always agree with each other; `beat` is set only by a successful `update_bpm`. */
    ghost predicate Valid()
      reads this
    {
      beat != 0.0 && eighth == beat / 2.0 && bar == beat * BeatsPerBar as real
    }

    /** The tempo, the flag, the epoch and the MIDI trace are as they were. */
    twostate predicate KeepsTempo()
      reads this
    {
      bpm == old(bpm) && beat == old(beat) && eighth == old(eighth) && bar == old(bar) &&
      running == old(running) && startTime == old(startTime) && midi == old(midi)
    }

    /** Everything but the clock and the MIDI trace is as it was. */
    twostate predicate KeepsJam()
      reads this
    {
      bpm == old(bpm) && beat == old(beat) && eighth == old(eighth) && bar == old(bar) &&
      running == old(running) && startTime == old(startTime) && drums == old(drums)
    }

    constructor(clock: real)
      ensures Valid() && bpm == InitialBpm && beat == BeatDuration(InitialBpm)
      ensures !running && startTime == 0.0 && now == clock && midi == [] && drums == []
    {
      var b := 60.0 / InitialBpm;
      bpm := InitialBpm;
      beat := b;
      eighth := b / 2.0;
      bar := b * BeatsPerBar as real;
      running := false;
      startTime := 0.0;
      now := clock;
      midi := [];
      drums := [];
    }

    /**
     * `update_bpm`: stores the new tempo, then derives the durations from it.
     * A zero tempo raises on the division after the tempo is stored, leaving
     * the durations as they were.
     */
    method UpdateBpm(b: real) returns (ok: bool)
      requires Valid()
      modifies this
      ensures Valid()
      ensures bpm == b && ok == (b != 0.0)
      ensures ok ==> beat == BeatDuration(b)
      ensures !ok ==> beat == old(beat)
      ensures running == old(running) && startTime == old(startTime) && now == old(now)
      ensures midi == old(midi) && drums == old(drums)
    {
      bpm := b;
      if b == 0.0 {
        return false;
      }
      beat := 60.0 / bpm;
      eighth := beat / 2.0;
      bar := beat * BeatsPerBar as real;
      return true;
    }

    /** `start_jam`: records the epoch and raises the flag, unless the jam is already running. */
    method StartJam()
      modifies this
      ensures old(running) ==> startTime == old(startTime)
      ensures !old(running) ==> startTime == old(now)
      ensures running
      ensures bpm == old(bpm) && beat == old(beat) && eighth == old(eighth) && bar == old(bar)
      ensures now == old(now) && midi == old(midi) && drums == old(drums)
    {
      if !running {
        startTime := now;
        running := true;
      }
    }

    /** `stop_jam`: lowers the flag. */
    method StopJam()
      modifies this
      ensures !running
      ensures bpm == old(bpm) && beat == old(beat) && eighth == old(eighth) && bar == old(bar)
      ensures startTime == old(startTime) && now == old(now) && midi == old(midi) && drums == old(drums)
    {
      running := false;
    }

    /** `time.sleep(d)`: a negative length raises and the clock does not move. */
    method Sleep(d: real) returns (ok: bool)
      modifies this
      ensures ok == (d >= 0.0)
      ensures now == old(now) + (if ok then d else 0.0)
      ensures KeepsJam() && midi == old(midi)
    {
      if d < 0.0 {
        return false;
      }
      now := now + d;
      return true;
    }

    /** Sleeps until `target` when it lies ahead. */
    method Wait(target: real)
      modifies this
      ensures now == WaitUntil(old(now), target)
      ensures KeepsJam() && midi == old(midi)
    {
      var wait := target - now;
      if wait > 0.0 {
        var _ := Sleep(wait);
      }
    }

    /**
     * `drum_beat_loop` for the `ticks` eighth notes it plays before it sees
     * the flag lowered (none when the jam is not running).
     */
    method DrumBeatLoop(ticks: nat)
      modifies this
      ensures KeepsTempo()
      ensures var count := if old(running) then ticks else 0;
        drums == old(drums) + Ticks(startTime, eighth, old(now), count) &&
        now == (if count == 0 then old(now) else TickTime(startTime, eighth, old(now), count - 1))
    {
      if !running {
        return;
      }
      ghost var clock := now;
      ghost var hits := drums;
      var n: nat := 0;
      while n < ticks
        invariant n <= ticks && KeepsTempo() && clock == old(now) && hits == old(drums)
        invariant drums == hits + Ticks(startTime, eighth, clock, n)
        invariant now == (if n == 0 then clock else TickTime(startTime, eighth, clock, n - 1))
      {
        var deadline := startTime + n as real * eighth;
        Tick(n, deadline, clock, hits);
        n := n + 1;
      }
    }

    /**
     * One pass of `drum_beat_loop`: wait for the deadline of eighth note `n`,
     * then strike its hits; `clock` and `hits` are the clock and the drum
     * trace when the loop began.
     */
    method Tick(n: nat, deadline: real, ghost clock: real, ghost hits: seq<Hit>)
      requires deadline == startTime + n as real * eighth
      requires drums == hits + Ticks(startTime, eighth, clock, n)
      requires now == (if n == 0 then clock else TickTime(startTime, eighth, clock, n - 1))
      modifies this
      ensures KeepsTempo()
      ensures drums == hits + Ticks(startTime, eighth, clock, n + 1)
      ensures now == TickTime(startTime, eighth, clock, n)
    {
      TickStep(startTime, eighth, clock, n);
      ghost var before := drums;
      Wait(deadline);
      drums := drums + [Hit(HiHat, now)];
      if n % 2 == 0 {
        var beatInBar := (n / 2) % BeatsPerBar;
        if beatInBar == 0 {
          drums := drums + [Hit(Kick, now)];
        } else if beatInBar == 1 {
          drums := drums + [Hit(Snare, now)];
        } else if beatInBar == 2 {
          drums := drums + [Hit(Kick, now)];
        } else if beatInBar == 3 {
          drums := drums + [Hit(Snare, now)];
        }
      }
      assert drums == before + Pattern(n, now);
    }

    /** Sends `ms` in order, all at the current time. */
    method SendAll(ms: seq<Message>)
      modifies this
      ensures midi == old(midi) + Stamp(ms, old(now))
      ensures now == old(now) && KeepsJam()
    {
      var i := 0;
      while i < |ms|
        invariant 0 <= i <= |ms|
        invariant midi == old(midi) + Stamp(ms[..i], old(now))
        invariant now == old(now) && KeepsJam()
      {
        assert Stamp(ms[..i + 1], now) == Stamp(ms[..i], now) + [Sent(ms[i], now)];
        midi := midi + [Sent(ms[i], now)];
        i := i + 1;
      }
      assert ms[..|ms|] == ms;
    }

    /**
     * The body of the playback loops: wait for the event to arrive and for its
     * start time on `zero`, send the note-ons, sleep for the duration, send the
     * note-offs.
     */
    method PlayEvent(x: Arrival, channel: bv8, zero: real) returns (ok: bool)
      modifies this
      ensures var r := PlayOne(x, channel, zero, old(now));
        midi == old(midi) + r.sent && now == r.clock && ok == r.ok
      ensures KeepsJam()
    {
      ghost var m0 := midi;
      WaitForEvent(x, zero);
      ghost var t := now;
      var ons := Ons(x.event, channel);
      SendAll(ons);
      ok := Sleep(Duration(x.event));
      if !ok {
        return;
      }
      SendAll(Offs(x.event, channel));
      assert midi == m0 + Stamp(ons, t) + Stamp(Offs(x.event, channel), t + Duration(x.event));
    }

    /** Waits for the event to arrive, then for its start time on `zero`. */
    method WaitForEvent(x: Arrival, zero: real)
      modifies this
      ensures now == WaitUntil(WaitUntil(old(now), x.at), zero + StartOf(x.event))
      ensures KeepsJam() && midi == old(midi)
    {
      Wait(x.at);
      var waitTime := StartOf(x.event) - (now - zero);
      if waitTime > 0.0 {
        var _ := Sleep(waitTime);
      }
    }

    /** Plays `xs` one after another on `zero`, stopping at the first event that raises. */
    method PlayAll(xs: seq<Arrival>, channel: bv8, zero: real) returns (ok: bool)
      modifies this
      ensures var r := Perform(xs, channel, zero, old(now));
        midi == old(midi) + r.sent && now == r.clock && ok == r.ok
      ensures KeepsJam()
    {
      var i := 0;
      ok := true;
      while i < |xs|
        invariant 0 <= i <= |xs|
        invariant var r := Perform(xs[..i], channel, zero, old(now));
          midi == old(midi) + r.sent && now == r.clock && r.ok
        invariant KeepsJam()
        invariant ok
      {
        ghost var before := Perform(xs[..i], channel, zero, old(now));
        ghost var last := PlayOne(xs[i], channel, zero, now);
        PerformStep(xs, i, channel, zero, old(now));
        ok := PlayEvent(xs[i], channel, zero);
        Regroup(old(midi), before.sent, last.sent);
        i := i + 1;
        if !ok {
          FailedStays(xs, i, channel, zero, old(now));
          return;
        }
      }
      assert xs[..|xs|] == xs;
    }

    /**
     * The shared batch path of `send_midi_sequence` and `_play_unsynced`: sort
     * by start time (a missing start time raises before anything plays), rebase
     * in place, then play each event on the time playback began.
     */
    method PlayBatch(events: seq<Event>, channel: bv8) returns (r: Outcome)
      modifies this
      ensures !HasStart(events) ==> r == MissingStartTime && midi == old(midi) && now == old(now)
      ensures HasStart(events) ==>
        var run := Perform(Ready(Prepared(events), old(now)), channel, old(now), old(now));
        midi == old(midi) + run.sent && now == run.clock && r == (if run.ok then Done else NegativeSleep)
      ensures KeepsJam()
    {
      if !HasStart(events) {
        return MissingStartTime;
      }
      var sorted := SortByStart(events);
      var a := new Event[|sorted|](k requires 0 <= k < |sorted| => sorted[k]);
      assert a[..] == sorted;
      RebaseInPlace(a);
      var zero := now;
      var ok := PlayAll(Ready(a[..], zero), channel, zero);
      r := if ok then Done else NegativeSleep;
    }

    /**
     * `send_midi_sequence`: unsynced when the jam is not running; otherwise
     * wait until two bars after the next bar boundary, then play the batch.
     */
    method SendMidiSequence(events: seq<Event>, channel: bv8) returns (r: Outcome)
      requires Valid()
      modifies this
      ensures KeepsJam()
      ensures var zero := if old(running) then WaitUntil(old(now), SyncedStart(startTime, old(now), bar)) else old(now);
        (!HasStart(events) ==> r == MissingStartTime && midi == old(midi) && now == zero) &&
        (HasStart(events) ==>
          var run := Perform(Ready(Prepared(events), zero), channel, zero, zero);
          midi == old(midi) + run.sent && now == run.clock && r == (if run.ok then Done else NegativeSleep))
    {
      if !running {
        r := PlayUnsynced(events, channel);
        return;
      }
      WaitForSync();
      r := PlayBatch(events, channel);
    }

    /** The wait of a synced batch: until two bars after the next bar boundary. */
    method WaitForSync()
      requires bar != 0.0
      modifies this
      ensures KeepsJam() && midi == old(midi)
      ensures now == WaitUntil(old(now), SyncedStart(startTime, old(now), bar))
    {
      var elapsed := now - startTime;
      var currentBar := Trunc(elapsed / bar);
      var nextBarTime := startTime + (currentBar + 1) as real * bar;
      var playTime := nextBarTime + 2.0 * bar;
      Wait(playTime);
    }

    /** `_play_unsynced`: the batch played from now. */
    method PlayUnsynced(events: seq<Event>, channel: bv8) returns (r: Outcome)
      modifies this
      ensures !HasStart(events) ==> r == MissingStartTime && midi == old(midi) && now == old(now)
      ensures HasStart(events) ==>
        var run := Perform(Ready(Prepared(events), old(now)), channel, old(now), old(now));
        midi == old(midi) + run.sent && now == run.clock && r == (if run.ok then Done else NegativeSleep)
      ensures KeepsJam()
    {
      r := PlayBatch(events, channel);
    }

    /**
     * `play_midi_events_streaming`: the first event waits for the next bar
     * boundary when the jam runs, and fixes the playback's zero so that it plays
     * at once; each later event targets that zero plus its start time.
     */
    method PlayMidiEventsStreaming(stream: seq<Arrival>, channel: bv8) returns (r: Outcome)
      requires Valid()
      modifies this
      ensures KeepsJam()
      ensures stream == [] ==> r == Done && midi == old(midi) && now == old(now)
      ensures stream != [] ==>
        var first := StreamStart(stream[0].at, old(now), old(running), startTime, bar);
        var run := Perform(stream, channel, first - StartOf(stream[0].event), first);
        midi == old(midi) + run.sent && now == run.clock && r == (if run.ok then Done else NegativeSleep)
    {
      if stream == [] {
        return Done;
      }
      WaitForStream(stream[0].at);
      var zero := now - StartOf(stream[0].event);
      var ok := PlayAll(stream, channel, zero);
      r := if ok then Done else NegativeSleep;
    }

    /** The wait before the first streamed event: its arrival, then the next bar boundary when the jam runs. */
    method WaitForStream(arrival: real)
      requires bar != 0.0
      modifies this
      ensures KeepsJam() && midi == old(midi)
      ensures now == StreamStart(arrival, old(now), running, startTime, bar)
    {
      Wait(arrival);
      if running {
        var elapsed := now - startTime;
        var currentBar := Trunc(elapsed / bar);
        var playTime := startTime + (currentBar + 1) as real * bar;
        Wait(playTime);
      }
    }

    /** `for event in events: event['start_time'] -= base_time`, the base taken from the first. */
    method RebaseInPlace(a: array<Event>)
      modifies a
      ensures a[..] == Rebased(old(a[..]))
    {
      if a.Length == 0 {
        return;
      }
      var base := StartOf(a[0]);
      ghost var original := a[..];
      var i := 0;
      while i < a.Length
        invariant 0 <= i <= a.Length
        invariant forall k :: 0 <= k < i ==> a[k] == original[k].(startTime := Some(StartOf(original[k]) - base))
        invariant forall k :: i <= k < a.Length ==> a[k] == original[k]
      {
        a[i] := a[i].(startTime := Some(StartOf(a[i]) - base));
        i := i + 1;
      }
    }
  }

  /** The clock when the first streamed event plays: on arrival, or at the next bar boundary when the jam runs. */
  function StreamStart(arrival: real, clock: real, running: bool, start: real, bar: real): real
    requires bar != 0.0
  {
    var ready := WaitUntil(clock, arrival);
    if running then WaitUntil(ready, NextBar(start, ready, bar)) else ready
  }

  /** Streaming waits at most until the next bar boundary, and not at all when the jam is not running. */
  lemma StreamStartBounds(arrival: real, clock: real, running: bool, start: real, bar: real)
    requires bar > 0.0
    ensures var ready := WaitUntil(clock, arrival);
      (!running ==> StreamStart(arrival, clock, running, start, bar) == ready) &&
      (running && ready >= start ==>
        ready < StreamStart(arrival, clock, running, start, bar) <= ready + bar &&
        StreamStart(arrival, clock, running, start, bar) == NextBar(start, ready, bar))
  {
    var ready := WaitUntil(clock, arrival);
    if running && ready >= start {
      NextBarBounds(start, ready, bar);
    }
  }

  /** The first streamed event plays exactly when the stream starts: its note-ons go out at that moment. */
  lemma StreamFirstPlaysAtOnce(x: Arrival, channel: bv8, first: real)
    requires first >= x.at
    ensures var r := PlayOne(x, channel, first - StartOf(x.event), first);
      forall k :: 0 <= k < |Ons(x.event, channel)| ==> r.sent[k].at == first
  {
    EventOnTime(x, channel, first - StartOf(x.event), first);
  }

  lemma PerformStep(xs: seq<Arrival>, i: nat, channel: bv8, zero: real, clock: real)
    requires i < |xs|
    ensures var before := Perform(xs[..i], channel, zero, clock);
      before.ok ==>
        var last := PlayOne(xs[i], channel, zero, before.clock);
        Perform(xs[..i + 1], channel, zero, clock) == Run(before.sent + last.sent, last.clock, last.ok)
  {
    assert xs[..i + 1][..i] == xs[..i];
  }

  lemma {:induction false} FailedStays(xs: seq<Arrival>, i: nat, channel: bv8, zero: real, clock: real)
    requires 0 < i <= |xs| && !Perform(xs[..i], channel, zero, clock).ok
    ensures Perform(xs, channel, zero, clock) == Perform(xs[..i], channel, zero, clock)
    decreases |xs| - i
  {
    if i < |xs| {
      assert xs[..i + 1][..i] == xs[..i];
      FailedStays(xs, i + 1, channel, zero, clock);
    } else {
      assert xs[..i] == xs;
    }
  }
}
