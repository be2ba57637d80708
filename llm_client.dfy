/**
 * The CSV text the jam exchanges with the language model, and the decoder
 * that turns the model's streamed reply into events line by line.
 *
 * One event per line: `notes,velocity,start_time,duration`, where `notes`
 * is one MIDI note number or several joined by `|` (a chord).
 */
module LlmClient {
  import opened Common
  import opened PyText

  /** An event's `note` field: one note number, or a list of them. */
  datatype Notes = Single(n: int) | Chord(ns: seq<int>)

  /** A number an event dict holds: a Python int or a Python float. */
  datatype Num = IntNum(i: int) | FloatNum(f: Float)

  /** An event dict handed to the serialiser; a key that is absent is `None`. */
  datatype MidiEvent = MidiEvent(note: Notes, velocity: Option<int>, startTime: Option<Num>, duration: Option<Num>)

  /** An event dict built by the parser: every key present, the times floats. */
  datatype ParsedEvent = ParsedEvent(note: Notes, velocity: int, startTime: Float, duration: Float)

  /** `int()` or `float()` refused the text of a field. */
  datatype ParseError = NotANumber(field: string)

  const DefaultStart: Num := IntNum(0)
  const DefaultDuration: Num := FloatNum(Float(5, 1))

  function NumValue(x: Num): real
  {
    match x
    case IntNum(i) => i as real
    case FloatNum(f) => Value(f)
  }

  // ---- serialiser ----

  function FormatNum(x: Num): string
  {
    match x
    case IntNum(i) => FormatInt(i)
    case FloatNum(f) => FormatFloat(f)
  }

  /** The notes field: the number, or the chord's numbers joined by `|`. */
  function FormatNotes(n: Notes): string
  {
    match n
    case Single(k) => FormatInt(k)
    case Chord(ns) => Join(Map(FormatInt, ns), '|')
  }

  /** The four fields of an event's line, absent keys filled with their defaults. */
  function Fields(e: MidiEvent): (r: seq<string>)
    ensures |r| == 4
  {
    [FormatNotes(e.note),
     FormatInt(GetOr(e.velocity, DefaultVelocity)),
     FormatNum(GetOr(e.startTime, DefaultStart)),
     FormatNum(GetOr(e.duration, DefaultDuration))]
  }

  function FormatLine(e: MidiEvent): string
  {
    Join(Fields(e), ',')
  }

  /** `midi_events_to_csv`: one line per event, the lines joined by `\n`. */
  function MidiEventsToCsv(events: seq<MidiEvent>): string
  {
    Join(Map(FormatLine, events), '\n')
  }

  // ---- parser ----

  /** `[int(n) for n in parts]`: the first part `int` refuses raises. */
  function ParseInts(parts: seq<string>): (r: Result<seq<int>, ParseError>)
    ensures r.Ok? <==> forall k :: 0 <= k < |parts| ==> ParseInt(parts[k]).Some?
    ensures r.Ok? ==> |r.value| == |parts| && forall k :: 0 <= k < |parts| ==> ParseInt(parts[k]) == Some(r.value[k])
  {
    if parts == [] then Ok([])
    else
      var first := ParseInt(parts[0]);
      var rest := ParseInts(parts[1..]);
      if first.None? then Err(NotANumber(parts[0]))
      else if rest.Err? then rest
      else Ok([first.value] + rest.value)
  }

  /** The notes field: a chord when it holds a `|`, else one note. */
  function ParseNotes(p: string): (r: Result<Notes, ParseError>)
    ensures r.Ok? ==> (r.value.Chord? <==> '|' in p)
    ensures r.Ok? && r.value.Chord? ==> |r.value.ns| == |Split(p, '|')| >= 2
  {
    if '|' in p then
      var parts := Split(p, '|');
      var ns := ParseInts(parts);
      SplitFound(p, '|');
      if ns.Ok? then Ok(Chord(ns.value)) else Err(ns.error)
    else
      var n := ParseInt(p);
      if n.Some? then Ok(Single(n.value)) else Err(NotANumber(p))
  }

  /** A stripped line cut at its commas. */
  function LineFields(line: string): seq<string>
  {
    Split(Strip(line), ',')
  }

  /**
   * One line of `csv_to_midi_events`: skipped (`None`) unless it has four
   * fields; then notes, velocity, start time and duration are read in that
   * order and the first one refused raises.
   */
  function ParseLine(line: string): Result<Option<ParsedEvent>, ParseError>
  {
    var parts := LineFields(line);
    if |parts| != 4 then Ok(None)
    else
      var notes := ParseNotes(parts[0]);
      var velocity := ParseInt(parts[1]);
      var start := ParseFloat(parts[2]);
      var duration := ParseFloat(parts[3]);
      if notes.Err? then Err(notes.error)
      else if velocity.None? then Err(NotANumber(parts[1]))
      else if start.None? then Err(NotANumber(parts[2]))
      else if duration.None? then Err(NotANumber(parts[3]))
      else Ok(Some(ParsedEvent(notes.value, velocity.value, start.value, duration.value)))
  }

  function OptionSeq<T>(o: Option<T>): seq<T>
  {
    if o.Some? then [o.value] else []
  }

  /** What parsing one line gave: nothing, an event, or the error it raised. */
  type Outcome = Result<Option<ParsedEvent>, ParseError>

  /** The outcomes of lines taken in order: the first error, or the events. */
  function Collect(outs: seq<Outcome>): Result<seq<ParsedEvent>, ParseError>
  {
    if outs == [] then Ok([])
    else
      var rest := Collect(outs[1..]);
      if outs[0].Err? then Err(outs[0].error)
      else if rest.Err? then rest
      else Ok(OptionSeq(outs[0].value) + rest.value)
  }

  /** One outcome per line. */
  function Outcomes(lines: seq<string>): seq<Outcome>
  {
    Map(ParseLine, lines)
  }

  /** The lines in order; the first one that raises ends the parse. */
  function ParseLines(lines: seq<string>): Result<seq<ParsedEvent>, ParseError>
  {
    Collect(Outcomes(lines))
  }

  /** `csv_to_midi_events`: the lines of the stripped text, parsed in order. */
  function CsvToMidiEvents(csv: string): Result<seq<ParsedEvent>, ParseError>
  {
    ParseLines(SplitLines(Strip(csv)))
  }

  // ---- what the parser promises ----

  /** Collecting succeeds exactly when no outcome is an error, with at most one event each. */
  lemma {:induction false} CollectOk(outs: seq<Outcome>)
    ensures Collect(outs).Ok? <==> forall k :: 0 <= k < |outs| ==> outs[k].Ok?
    ensures Collect(outs).Ok? ==> |Collect(outs).value| <= |outs|
    decreases |outs|
  {
    if outs != [] {
      CollectOk(outs[1..]);
      assert forall k :: 1 <= k < |outs| ==> outs[k] == outs[1..][k - 1];
    }
  }

  /** An outcome with no event and no error can be dropped, wherever it stands. */
  lemma {:induction false} CollectSkip(before: seq<Outcome>, after: seq<Outcome>)
    ensures Collect(before + [Ok(None)] + after) == Collect(before + after)
    decreases |before|
  {
    var x := before + [Ok(None)] + after;
    var y := before + after;
    if before == [] {
      assert x[1..] == after && y == after;
      var rest := Collect(after);
      if rest.Ok? {
        assert [] + rest.value == rest.value;
      }
    } else {
      assert x[0] == before[0] && y[0] == before[0];
      assert x[1..] == before[1..] + [Ok(None)] + after;
      assert y[1..] == before[1..] + after;
      CollectSkip(before[1..], after);
    }
  }

  /** The parse succeeds exactly when no line raises, with at most one event per line. */
  lemma ParseLinesOk(lines: seq<string>)
    ensures ParseLines(lines).Ok? <==> forall k :: 0 <= k < |lines| ==> ParseLine(lines[k]).Ok?
    ensures ParseLines(lines).Ok? ==> |ParseLines(lines).value| <= |lines|
  {
    CollectOk(Outcomes(lines));
  }

  /** A line without four fields adds nothing and raises nothing, wherever it stands. */
  lemma SkipsWrongFieldCount(before: seq<string>, line: string, after: seq<string>)
    requires |LineFields(line)| != 4
    ensures ParseLines(before + [line] + after) == ParseLines(before + after)
  {
    assert ParseLine(line) == Ok(None);
    MapAppend(ParseLine, before, [line]);
    MapAppend(ParseLine, before + [line], after);
    MapAppend(ParseLine, before, after);
    assert Outcomes([line]) == [Ok(None)];
    CollectSkip(Outcomes(before), Outcomes(after));
  }

  /** A four-field line with a field `int` or `float` refuses makes the whole parse raise. */
  lemma RefusedFieldRaises(lines: seq<string>, k: nat)
    requires k < |lines| && |LineFields(lines[k])| == 4
    requires var p := LineFields(lines[k]);
      ParseNotes(p[0]).Err? || ParseInt(p[1]).None? || ParseFloat(p[2]).None? || ParseFloat(p[3]).None?
    ensures ParseLines(lines).Err?
  {
    assert ParseLine(lines[k]).Err?;
    ParseLinesOk(lines);
  }

  // ---- the round trip ----

  /** A 1-note chord is written without a `|`, so it comes back as that note. */
  function NormalNotes(n: Notes): Notes
  {
    if n.Chord? && |n.ns| == 1 then Single(n.ns[0]) else n
  }

  /** The float that `float(str(x))` gives for a serialised number. */
  function AsFloat(x: Num): Float
  {
    match x
    case IntNum(i) => Float(i * 10, 1)
    case FloatNum(f) => Normalize(f)
  }

  /** The event the parser rebuilds from an event's line. */
  function Expected(e: MidiEvent): ParsedEvent
  {
    ParsedEvent(NormalNotes(e.note), GetOr(e.velocity, DefaultVelocity),
                AsFloat(GetOr(e.startTime, DefaultStart)), AsFloat(GetOr(e.duration, DefaultDuration)))
  }

  /** An event the serialiser can write readably: a chord has at least one note. */
  predicate Writable(e: MidiEvent)
  {
    e.note.Chord? ==> |e.note.ns| >= 1
  }

  /** Reading a serialised number back keeps its value. */
  lemma AsFloatValue(x: Num)
    ensures Value(AsFloat(x)) == NumValue(x)
  {
    match x
    case IntNum(i) => ValueOfInt(i);
    case FloatNum(f) => NormalizeValue(f);
  }

  /** The characters a number is written with. */
  predicate NumChar(c: char) { IsDigit(c) || c == '-' || c == '.' }

  predicate NumText(s: string) { forall k :: 0 <= k < |s| ==> NumChar(s[k]) }

  /** The characters a line is written with. */
  predicate CsvChar(c: char) { NumChar(c) || c == '|' || c == ',' }

  predicate CsvText(s: string) { forall k :: 0 <= k < |s| ==> CsvChar(s[k]) }

  /** A minus sign in front of number text is number text. */
  lemma NegatedText(b: string)
    requires NumText(b)
    ensures NumText("-" + b)
  {
    var s := "-" + b;
    forall k | 0 < k < |s|
      ensures NumChar(s[k])
    {
      assert s[k] == b[k - 1];
    }
  }

  lemma IntText(i: int)
    ensures NumText(FormatInt(i))
  {
    var n: nat := if i < 0 then -i else i;
    var d := FormatNat(n);
    assert AllDigits(d);
    if i < 0 {
      NegatedText(d);
    }
  }

  lemma FloatBodyText(n: nat, places: nat)
    ensures NumText(FloatBody(n, places))
  {
    var b := FloatBody(n, places);
    if places == 0 {
      var d := FormatNat(n);
      assert AllDigits(d);
      assert b == d + ".0";
      forall k | 0 <= k < |b|
        ensures NumChar(b[k])
      {
        if k < |d| {
          assert b[k] == d[k];
        }
      }
    } else {
      var p := Padded(n, places);
      var cut := |p| - places;
      assert b == p[..cut] + "." + p[cut..];
      forall k | 0 <= k < |b|
        ensures NumChar(b[k])
      {
        if k < cut {
          assert b[k] == p[k];
        } else if k > cut {
          assert b[k] == p[k - 1];
        }
      }
    }
  }

  lemma FloatText(x: Float)
    ensures NumText(FormatFloat(x))
  {
    var n: nat := if x.digits < 0 then -x.digits else x.digits;
    var b := FloatBody(n, x.places);
    FloatBodyText(n, x.places);
    if x.digits < 0 {
      NegatedText(b);
      assert FormatFloat(x) == "-" + b;
    } else {
      assert FormatFloat(x) == b;
    }
  }

  lemma NumFieldText(x: Num)
    ensures NumText(FormatNum(x))
  {
    match x
    case IntNum(i) => IntText(i);
    case FloatNum(f) => FloatText(f);
  }

  lemma NumTextAvoids(s: string, c: char)
    requires NumText(s) && !NumChar(c)
    ensures c !in s
  {
    forall k | 0 <= k < |s|
      ensures s[k] != c
    {
      assert NumChar(s[k]);
    }
  }

  /** A join of pieces that avoid `c`, with a separator other than `c`, avoids `c`. */
  lemma {:induction false} JoinAvoids(parts: seq<string>, sep: char, c: char)
    requires c != sep && forall k :: 0 <= k < |parts| ==> c !in parts[k]
    ensures c !in Join(parts, sep)
    decreases |parts|
  {
    if |parts| > 1 {
      JoinAvoids(parts[1..], sep, c);
      assert Join(parts, sep) == parts[0] + [sep] + Join(parts[1..], sep);
    }
  }

  /** A join of pieces written with `CsvChar`s, by a `CsvChar`, is written with them too. */
  lemma {:induction false} JoinCsv(parts: seq<string>, sep: char)
    requires CsvChar(sep) && forall k :: 0 <= k < |parts| ==> CsvText(parts[k])
    ensures CsvText(Join(parts, sep))
    decreases |parts|
  {
    if |parts| > 1 {
      JoinCsv(parts[1..], sep);
      var s := Join(parts, sep);
      var p := parts[0];
      var rest := Join(parts[1..], sep);
      assert s == p + [sep] + rest;
      forall k | 0 <= k < |s|
        ensures CsvChar(s[k])
      {
        if k < |p| {
          assert s[k] == p[k];
        } else if k > |p| {
          assert s[k] == rest[k - |p| - 1];
        }
      }
    }
  }

  lemma {:induction false} JoinLast(parts: seq<string>, sep: char)
    requires |parts| >= 1 && parts[|parts| - 1] != []
    ensures var s := Join(parts, sep); var q := parts[|parts| - 1];
      s != [] && s[|s| - 1] == q[|q| - 1]
    decreases |parts|
  {
    if |parts| > 1 {
      JoinLast(parts[1..], sep);
      assert Join(parts, sep) == parts[0] + [sep] + Join(parts[1..], sep);
    }
  }

  lemma JoinHasSep(parts: seq<string>, sep: char)
    requires |parts| >= 2
    ensures sep in Join(parts, sep)
  {
    var s := Join(parts, sep);
    assert s == parts[0] + [sep] + Join(parts[1..], sep);
    assert s[|parts[0]|] == sep;
  }

  lemma NumTextNotSpace(c: char)
    requires CsvChar(c)
    ensures !IsSpace(c) && !IsLineBreak(c)
  {
  }

  /** The notes field reads back as the notes, a 1-note chord as that note. */
  lemma ParseFormatNotes(n: Notes)
    requires n.Chord? ==> |n.ns| >= 1
    ensures ParseNotes(FormatNotes(n)) == Ok(NormalNotes(n))
  {
    match n
    case Single(k) =>
      IntText(k);
      NumTextAvoids(FormatInt(k), '|');
      ParseFormatInt(k);
    case Chord(ns) =>
      var parts := Map(FormatInt, ns);
      var text := Join(parts, '|');
      if |ns| == 1 {
        assert text == FormatInt(ns[0]);
        IntText(ns[0]);
        NumTextAvoids(FormatInt(ns[0]), '|');
        ParseFormatInt(ns[0]);
      } else {
        forall k | 0 <= k < |parts|
          ensures '|' !in parts[k] && ParseInt(parts[k]) == Some(ns[k])
        {
          IntText(ns[k]);
          NumTextAvoids(parts[k], '|');
          ParseFormatInt(ns[k]);
        }
        JoinHasSep(parts, '|');
        SplitJoin(parts, '|');
        var r := ParseInts(parts);
        assert r.Ok?;
        assert r.value == ns;
      }
  }

  lemma CsvFromNum(s: string)
    requires NumText(s)
    ensures CsvText(s) && ',' !in s && '|' !in s
  {
    NumTextAvoids(s, ',');
    NumTextAvoids(s, '|');
  }

  lemma NotesText(n: Notes)
    ensures CsvText(FormatNotes(n)) && ',' !in FormatNotes(n)
  {
    match n
    case Single(k) =>
      IntText(k);
      CsvFromNum(FormatInt(k));
    case Chord(ns) =>
      var parts := Map(FormatInt, ns);
      forall k | 0 <= k < |parts|
        ensures CsvText(parts[k]) && ',' !in parts[k]
      {
        IntText(ns[k]);
        CsvFromNum(parts[k]);
      }
      JoinCsv(parts, '|');
      JoinAvoids(parts, '|', ',');
  }

  /** Every field is written with `CsvChar`s and holds no comma. */
  lemma FieldsText(e: MidiEvent)
    ensures forall s :: s in Fields(e) ==> CsvText(s) && ',' !in s
  {
    var v := GetOr(e.velocity, DefaultVelocity);
    var t := GetOr(e.startTime, DefaultStart);
    var d := GetOr(e.duration, DefaultDuration);
    NotesText(e.note);
    IntText(v);
    CsvFromNum(FormatInt(v));
    NumFieldText(t);
    CsvFromNum(FormatNum(t));
    NumFieldText(d);
    CsvFromNum(FormatNum(d));
    assert Fields(e) == [FormatNotes(e.note), FormatInt(v), FormatNum(t), FormatNum(d)];
  }

  /** An event's line is not empty, is written with `CsvChar`s, and cuts back into its fields. */
  lemma LineText(e: MidiEvent)
    ensures FormatLine(e) != [] && CsvText(FormatLine(e))
    ensures Strip(FormatLine(e)) == FormatLine(e)
    ensures LineFields(FormatLine(e)) == Fields(e)
  {
    var f := Fields(e);
    var line := FormatLine(e);
    FieldsText(e);
    JoinCsv(f, ',');
    JoinHasSep(f, ',');
    NumTextNotSpace(line[0]);
    NumTextNotSpace(line[|line| - 1]);
    StripNoop(line);
    SplitJoin(f, ',');
  }

  lemma ParseFormatNum(x: Num)
    ensures ParseFloat(FormatNum(x)) == Some(AsFloat(x))
  {
    match x
    case IntNum(i) => ParseFloatOfInt(i);
    case FloatNum(f) => ParseFormatFloat(f);
  }

  /** An event's line parses back to the event, defaults filled in. */
  lemma ParseFormatLine(e: MidiEvent)
    requires Writable(e)
    ensures ParseLine(FormatLine(e)) == Ok(Some(Expected(e)))
  {
    var v := GetOr(e.velocity, DefaultVelocity);
    var t := GetOr(e.startTime, DefaultStart);
    var d := GetOr(e.duration, DefaultDuration);
    var line := FormatLine(e);
    LineText(e);
    var f := LineFields(line);
    assert f == [FormatNotes(e.note), FormatInt(v), FormatNum(t), FormatNum(d)];
    ParseFormatNotes(e.note);
    ParseFormatInt(v);
    ParseFormatNum(t);
    ParseFormatNum(d);
    ReadFields(line, NormalNotes(e.note), v, AsFloat(t), AsFloat(d));
  }

  lemma ReadFields(line: string, n: Notes, v: int, t: Float, d: Float)
    requires var f := LineFields(line);
      |f| == 4 && ParseNotes(f[0]) == Ok(n) && ParseInt(f[1]) == Some(v) &&
      ParseFloat(f[2]) == Some(t) && ParseFloat(f[3]) == Some(d)
    ensures ParseLine(line) == Ok(Some(ParsedEvent(n, v, t, d)))
  {
  }

  /** Outcomes that are all events collect into those events. */
  lemma {:induction false} CollectAll(outs: seq<Outcome>, events: seq<ParsedEvent>)
    requires |outs| == |events| && forall k :: 0 <= k < |outs| ==> outs[k] == Ok(Some(events[k]))
    ensures Collect(outs) == Ok(events)
    decreases |outs|
  {
    if outs != [] {
      CollectAll(outs[1..], events[1..]);
      assert events == [events[0]] + events[1..];
    }
  }

  lemma CsvNoBreak(s: string)
    requires CsvText(s)
    ensures NoLineBreak(s)
  {
    forall j | 0 <= j < |s|
      ensures !IsLineBreak(s[j])
    {
      NumTextNotSpace(s[j]);
    }
  }

  /** Every line is non-empty and written with `CsvChar`s, so it holds no line boundary. */
  lemma LinesText(events: seq<MidiEvent>)
    ensures forall k :: 0 <= k < |events| ==>
      var line := Map(FormatLine, events)[k];
      line != [] && NoLineBreak(line) && CsvText(line) && LineFields(line) == Fields(events[k])
  {
    var lines := Map(FormatLine, events);
    forall k | 0 <= k < |events|
      ensures lines[k] != [] && NoLineBreak(lines[k]) && CsvText(lines[k]) && LineFields(lines[k]) == Fields(events[k])
    {
      LineText(events[k]);
      CsvNoBreak(lines[k]);
    }
  }

  /** Lines that start and end with `CsvChar`s, joined by `\n`, have nothing to strip. */
  lemma StripLines(lines: seq<string>)
    requires lines != [] ==> lines[0] != [] && CsvChar(lines[0][0])
    requires lines != [] ==> var last := lines[|lines| - 1]; last != [] && CsvChar(last[|last| - 1])
    ensures Strip(Join(lines, '\n')) == Join(lines, '\n')
  {
    var csv := Join(lines, '\n');
    if lines != [] {
      JoinNonEmpty(lines, '\n');
      JoinLast(lines, '\n');
      var last := lines[|lines| - 1];
      NumTextNotSpace(lines[0][0]);
      NumTextNotSpace(last[|last| - 1]);
      assert csv[0] == lines[0][0] && csv[|csv| - 1] == last[|last| - 1];
    }
    StripNoop(csv);
  }

  /**
   * The serialiser writes one line per event, and each line cuts back into
   * that event's four fields; the text has no white space to strip.
   */
  lemma CsvLines(events: seq<MidiEvent>)
    ensures Strip(MidiEventsToCsv(events)) == MidiEventsToCsv(events)
    ensures SplitLines(MidiEventsToCsv(events)) == Map(FormatLine, events)
    ensures forall k :: 0 <= k < |events| ==> LineFields(FormatLine(events[k])) == Fields(events[k])
  {
    var lines := Map(FormatLine, events);
    LinesText(events);
    SplitLinesJoin(lines);
    StripLines(lines);
  }

  /**
   * `csv_to_midi_events(midi_events_to_csv(events))`: every event comes
   * back, in order, with the defaults filled in, a 1-note chord as a
   * single note and each time as the float its text denotes.
   */
  lemma CsvRoundTrip(events: seq<MidiEvent>)
    requires forall k :: 0 <= k < |events| ==> Writable(events[k])
    ensures CsvToMidiEvents(MidiEventsToCsv(events)) == Ok(Map(Expected, events))
  {
    CsvLines(events);
    var lines := Map(FormatLine, events);
    var outs := Map(ParseLine, lines);
    forall k | 0 <= k < |outs|
      ensures outs[k] == Ok(Some(Map(Expected, events)[k]))
    {
      ParseFormatLine(events[k]);
    }
    CollectAll(outs, Map(Expected, events));
  }

  /** An event with every key present and no chord of fewer than two notes. */
  predicate Complete(e: MidiEvent)
  {
    e.velocity.Some? && e.startTime.Some? && e.duration.Some? && (e.note.Chord? ==> |e.note.ns| >= 2)
  }

  /** The parsed event holds the event's values: notes, velocity, and times as numbers. */
  predicate Restores(p: ParsedEvent, e: MidiEvent)
  {
    p.note == e.note && e.velocity == Some(p.velocity) &&
    e.startTime.Some? && Value(p.startTime) == NumValue(e.startTime.value) &&
    e.duration.Some? && Value(p.duration) == NumValue(e.duration.value)
  }

  /** Complete events come back equal field by field (the times as numbers). */
  lemma CsvRoundTripComplete(events: seq<MidiEvent>)
    requires forall k :: 0 <= k < |events| ==> Complete(events[k])
    ensures var r := CsvToMidiEvents(MidiEventsToCsv(events));
      r.Ok? && |r.value| == |events| && forall k :: 0 <= k < |events| ==> Restores(r.value[k], events[k])
  {
    CsvRoundTrip(events);
    var ps := Map(Expected, events);
    forall k | 0 <= k < |events|
      ensures Restores(ps[k], events[k])
    {
      AsFloatValue(events[k].startTime.value);
      AsFloatValue(events[k].duration.value);
    }
  }

  // ---- the stream decoder ----

  /**
   * What the decoder yields for one complete line: nothing for a blank line
   * or one that raises, else the first event the line parses to.
   */
  function LineEvents(line: string): (r: seq<ParsedEvent>)
    ensures |r| <= 1
    ensures Strip(line) == [] ==> r == []
    ensures r != [] ==>
      var parsed := CsvToMidiEvents(Strip(line));
      parsed.Ok? && parsed.value != [] && r[0] == parsed.value[0]
    ensures Strip(line) != [] && CsvToMidiEvents(Strip(line)).Ok? && CsvToMidiEvents(Strip(line)).value != [] ==> r != []
  {
    var t := Strip(line);
    if t == [] then []
    else
      var parsed := CsvToMidiEvents(t);
      if parsed.Err? || parsed.value == [] then [] else [parsed.value[0]]
  }

  /** The complete (`\n`-ended) lines of `text`, the `\n`s dropped. */
  function CompleteLines(text: string): seq<string>
  {
    var parts := Split(text, '\n');
    parts[..|parts| - 1]
  }

  /** What follows the last `\n`: the line still being received. */
  function Tail(text: string): (r: string)
    ensures '\n' !in r
  {
    var parts := Split(text, '\n');
    SplitAvoids(text, '\n');
    parts[|parts| - 1]
  }

  /** What `f` makes of each complete line of `text`, in order. */
  function Events<T>(f: string -> seq<T>, text: string): seq<T>
  {
    Flatten(Map(f, CompleteLines(text)))
  }

  /** The events of the complete lines of `text`, in order. */
  function Decode(text: string): seq<ParsedEvent>
  {
    Events(LineEvents, text)
  }

  /** A text is its complete lines and its unfinished one. */
  lemma LinesAndTail(text: string)
    ensures Split(text, '\n') == CompleteLines(text) + [Tail(text)]
  {
    var parts := Split(text, '\n');
    assert parts == parts[..|parts| - 1] + [parts[|parts| - 1]];
  }

  /** Text without a `\n` holds no complete line and is kept whole. */
  lemma NoNewline(t: string)
    requires '\n' !in t
    ensures CompleteLines(t) == [] && Tail(t) == t
  {
    SplitJoin([t], '\n');
  }

  /**
   * Cutting the text anywhere changes no line: the complete lines of `x + y`
   * are those of `x`, then those of `x`'s unfinished line followed by `y`.
   */
  lemma {:induction false} LinesAppend(x: string, y: string)
    ensures CompleteLines(x + y) == CompleteLines(x) + CompleteLines(Tail(x) + y)
    ensures Tail(x + y) == Tail(Tail(x) + y)
    decreases |x|
  {
    if '\n' in x {
      var k := IndexOf(x, '\n');
      IndexOfFound(x, '\n');
      var rest := x[k + 1..];
      assert (x + y)[..k] == x[..k];
      assert (x + y)[k + 1..] == rest + y;
      IndexOfUnique(x + y, '\n', k);
      LinesFirst(x);
      LinesFirst(x + y);
      LinesAppend(rest, y);
      Regroup([x[..k]], CompleteLines(rest), CompleteLines(Tail(rest) + y));
    } else {
      NoNewline(x);
    }
  }

  /** Decoding is the same however the text is cut. */
  lemma EventsAppend<T>(f: string -> seq<T>, x: string, y: string)
    ensures Events(f, x + y) == Events(f, x) + Events(f, Tail(x) + y)
    ensures Tail(x + y) == Tail(Tail(x) + y)
  {
    LinesAppend(x, y);
    MapAppend(f, CompleteLines(x), CompleteLines(Tail(x) + y));
    FlattenAppend(Map(f, CompleteLines(x)), Map(f, CompleteLines(Tail(x) + y)));
  }

  /** The first complete line, then the lines after it. */
  lemma LinesFirst(text: string)
    requires '\n' in text
    ensures var k := IndexOf(text, '\n');
      CompleteLines(text) == [text[..k]] + CompleteLines(text[k + 1..]) &&
      Tail(text) == Tail(text[k + 1..])
  {
    var k := IndexOf(text, '\n');
    IndexOfFound(text, '\n');
    var head := text[..k];
    var rest := Split(text[k + 1..], '\n');
    var parts := [head] + rest;
    SplitUnfold(text, '\n');
    assert Split(text, '\n') == parts;
    assert parts[..|rest|] == [head] + rest[..|rest| - 1];
    assert parts[|rest|] == rest[|rest| - 1];
    assert CompleteLines(text) == parts[..|rest|];
    assert CompleteLines(text[k + 1..]) == rest[..|rest| - 1];
  }

  lemma FlattenMapCons<A, B>(f: A -> seq<B>, x: A, rest: seq<A>)
    ensures Flatten(Map(f, [x] + rest)) == f(x) + Flatten(Map(f, rest))
  {
    var m := Map(f, [x] + rest);
    assert m[1..] == Map(f, rest);
  }

  /** The first complete line, then the rest. */
  lemma EventsFirst<T>(f: string -> seq<T>, text: string)
    requires '\n' in text
    ensures var k := IndexOf(text, '\n');
      Events(f, text) == f(text[..k]) + Events(f, text[k + 1..]) &&
      Tail(text) == Tail(text[k + 1..])
  {
    var k := IndexOf(text, '\n');
    LinesFirst(text);
    FlattenMapCons(f, text[..k], CompleteLines(text[k + 1..]));
  }

  /** The events of the first complete line, then those of the rest. */
  lemma DecodeFirst(text: string)
    requires '\n' in text
    ensures var k := IndexOf(text, '\n');
      Decode(text) == LineEvents(text[..k]) + Decode(text[k + 1..]) &&
      Tail(text) == Tail(text[k + 1..])
  {
    EventsFirst(LineEvents, text);
  }

  /** Text after the last `\n` is never parsed. */
  lemma TailNeverParsed(x: string, t: string)
    requires '\n' !in t
    ensures Decode(x + t) == Decode(x)
  {
    EventsAppend(LineEvents, x, t);
    NoNewline(Tail(x) + t);
  }

  /** One complete line per `\n`. */
  lemma CountLines(text: string)
    ensures |CompleteLines(text)| == multiset(text)['\n']
  {
    SplitCount(text, '\n');
  }

  lemma {:induction false} FlattenAtMostOne<T>(xss: seq<seq<T>>)
    requires forall k :: 0 <= k < |xss| ==> |xss[k]| <= 1
    ensures |Flatten(xss)| <= |xss|
    decreases |xss|
  {
    if xss != [] {
      FlattenAtMostOne(xss[1..]);
    }
  }

  /** At most one event per `\n`-ended line. */
  lemma AtMostOnePerLine(text: string)
    ensures |Decode(text)| <= multiset(text)['\n']
  {
    CountLines(text);
    FlattenAtMostOne(Map(LineEvents, CompleteLines(text)));
  }

  /** The text a streamed delta adds: nothing when it is missing. */
  function Text(delta: Option<string>): string
  {
    if delta.Some? then delta.value else []
  }

  /**
   * The inner loop of `stream_llm_midi_response`: cuts complete lines off the
   * front of the buffer and yields each one's event, keeping the unfinished line.
   */
  method TakeLines(text: string) returns (yielded: seq<ParsedEvent>, buffer: string)
    ensures yielded == Decode(text)
    ensures buffer == Tail(text) && '\n' !in buffer
  {
    buffer := text;
    yielded := [];
    while '\n' in buffer
      invariant yielded + Decode(buffer) == Decode(text)
      invariant Tail(buffer) == Tail(text)
      decreases |buffer|
    {
      var k := IndexOf(buffer, '\n');
      var line := buffer[..k];
      DecodeFirst(buffer);
      var events := LineEvents(line);
      Regroup(yielded, events, Decode(buffer[k + 1..]));
      buffer := buffer[k + 1..];
      yielded := yielded + events;
    }
    NoNewline(buffer);
    assert Map(LineEvents, CompleteLines(buffer)) == [];
  }

  /** All the deltas' text, in order. */
  function Concat(deltas: seq<Option<string>>): string
  {
    if deltas == [] then [] else Concat(deltas[..|deltas| - 1]) + Text(deltas[|deltas| - 1])
  }

  /**
   * The decoding loop of `stream_llm_midi_response` over a whole reply: what
   * it yields depends only on the concatenated text, not on how it was cut.
   */
  method DecodeStream(deltas: seq<Option<string>>) returns (yielded: seq<ParsedEvent>)
    ensures yielded == Decode(Concat(deltas))
  {
    var buffer := "";
    yielded := [];
    var i := 0;
    while i < |deltas|
      invariant 0 <= i <= |deltas|
      invariant yielded == Decode(Concat(deltas[..i]))
      invariant buffer == Tail(Concat(deltas[..i]))
    {
      assert deltas[..i + 1][..i] == deltas[..i];
      EventsAppend(LineEvents, Concat(deltas[..i]), Text(deltas[i]));
      var delta := deltas[i];
      if delta.Some? && delta.value != [] {
        var out;
        out, buffer := TakeLines(buffer + delta.value);
        yielded := yielded + out;
      } else {
        NoNewline(buffer);
        assert buffer + Text(delta) == buffer;
        assert Map(LineEvents, CompleteLines(buffer)) == [];
      }
      i := i + 1;
    }
    assert deltas[..|deltas|] == deltas;
  }
}
