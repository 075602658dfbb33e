/** `SseParser`: the line parser of the SSE bridge, one line at a time, and the frames a server
    writes for it. Field names, the stripped leading space and the sticky id follow the "Interpreting
    an event stream" section (9.2.6) of the WHATWG HTML standard; the event type is kept across a
    blank line that carries no data, where the standard would reset it. */
module SseParser {
  import opened Text

  datatype SseEvent = SseEvent(eventType: string, data: string, lastEventId: string)

  datatype ParserState = ParserState(eventType: string, dataLines: seq<string>, lastEventId: string)

  const DEFAULT_TYPE := "message"

  function Initial(): ParserState {
    ParserState(DEFAULT_TYPE, [], "")
  }

  /** Parser state between frames: only the sticky id is left from the last one. */
  function Idle(lastEventId: string): ParserState {
    Initial().(lastEventId := lastEventId)
  }

  /** `line.rstrip("\r\n")`. */
  function StripEol(line: string): (s: string)
    ensures |s| <= |line| && s == line[..|s|]
    ensures s != "" ==> s[|s| - 1] !in "\r\n"
    ensures line != "" && line[|line| - 1] in "\r\n" ==> s != line
  {
    if line != "" && line[|line| - 1] in "\r\n" then StripEol(line[..|line| - 1]) else line
  }

  /** Field name and value of a line that is neither blank nor a comment. */
  function Field(line: string): (string, string) {
    var i := IndexOf(line, ':');
    if i == |line| then (line, "")
    else
      var value := line[i + 1..];
      (line[..i], if StartsWith(value, " ") then value[1..] else value)
  }

  /** What a line is to the parser. */
  datatype Line =
    | Comment | Blank
    | EventField(value: string) | DataField(value: string) | IdField(value: string) | UnknownField

  function Classify(raw: string): Line {
    var line := StripEol(raw);
    if StartsWith(line, ":") then Comment
    else if line == "" then Blank
    else
      var (name, value) := Field(line);
      if name == "event" then EventField(value)
      else if name == "data" then DataField(value)
      else if name == "id" then IdField(value)
      else UnknownField
  }

  /** The parser state after a line. */
  function Next(st: ParserState, line: Line): ParserState {
    match line
    case Comment | UnknownField => st
    case EventField(v) => st.(eventType := v)
    case DataField(v) => WithData(st, v)
    case IdField(v) => st.(lastEventId := v)
    case Blank => if st.dataLines == [] then st else Idle(st.lastEventId)
  }

  /** The event a line completes, if any. */
  function Out(st: ParserState, line: Line): seq<SseEvent> {
    if line.Blank? && st.dataLines != [] then
      [SseEvent(st.eventType, Join(st.dataLines, '\n'), st.lastEventId)]
    else []
  }

  class Parser {
    var eventType: string
    var dataLines: seq<string>
    var lastEventId: string

    function State(): ParserState reads this {
      ParserState(eventType, dataLines, lastEventId)
    }

    constructor ()
      ensures State() == Initial()
    {
      eventType, dataLines, lastEventId := DEFAULT_TYPE, [], "";
    }

    method FeedLine(raw: string) returns (event: Option<SseEvent>)
      modifies this
      ensures State() == Next(old(State()), Classify(raw))
      ensures (if event.Some? then [event.value] else []) == Out(old(State()), Classify(raw))
    {
      var line := StripEol(raw);
      if StartsWith(line, ":") {
        return None;
      }
      if line == "" {
        if dataLines != [] {
          event := Some(SseEvent(eventType, Join(dataLines, '\n'), lastEventId));
          eventType := DEFAULT_TYPE;
          dataLines := [];
          return;
        }
        return None;
      }
      var (name, value) := Field(line);
      if name == "event" {
        eventType := value;
      } else if name == "data" {
        dataLines := dataLines + [value];
      } else if name == "id" {
        lastEventId := value;
      }
      return None;
    }
  }

  // ---------- many lines ----------

  function ClassifyAll(lines: seq<string>): (r: seq<Line>)
    ensures |r| == |lines|
    ensures forall i :: 0 <= i < |lines| ==> r[i] == Classify(lines[i])
  {
    seq(|lines|, i requires 0 <= i < |lines| => Classify(lines[i]))
  }

  function After(st: ParserState, lines: seq<Line>): ParserState
    decreases |lines|
  {
    if lines == [] then st else After(Next(st, lines[0]), lines[1..])
  }

  function Emitted(st: ParserState, lines: seq<Line>): seq<SseEvent>
    decreases |lines|
  {
    if lines == [] then [] else Out(st, lines[0]) + Emitted(Next(st, lines[0]), lines[1..])
  }

  /** The events a parser in state `st` returns over the given lines. */
  function FeedAll(st: ParserState, lines: seq<string>): seq<SseEvent> {
    Emitted(st, ClassifyAll(lines))
  }

  lemma {:induction false} Concat(st: ParserState, a: seq<Line>, b: seq<Line>)
    ensures After(st, a + b) == After(After(st, a), b)
    ensures Emitted(st, a + b) == Emitted(st, a) + Emitted(After(st, a), b)
    decreases |a|
  {
    if a == [] {
      assert a + b == b;
    } else {
      Concat(Next(st, a[0]), a[1..], b);
      assert (a + b)[1..] == a[1..] + b && (a + b)[0] == a[0];
    }
  }

  lemma One(st: ParserState, line: Line)
    ensures After(st, [line]) == Next(st, line)
    ensures Emitted(st, [line]) == Out(st, line)
  {
    assert [line][1..] == [] && Out(st, line) + [] == Out(st, line);
  }

  lemma ClassifyConcat(a: seq<string>, b: seq<string>)
    ensures ClassifyAll(a + b) == ClassifyAll(a) + ClassifyAll(b)
  {
  }

  /** Comments (keep-alive pings) and unknown fields can stand anywhere without any effect. */
  lemma NoiseChangesNothing(st: ParserState, a: seq<string>, noise: string, b: seq<string>)
    requires Classify(noise).Comment? || Classify(noise).UnknownField?
    ensures FeedAll(st, a + [noise] + b) == FeedAll(st, a + b)
  {
    var ca, cb, n := ClassifyAll(a), ClassifyAll(b), Classify(noise);
    ClassifyConcat(a + [noise], b);
    ClassifyConcat(a, [noise]);
    ClassifyConcat(a, b);
    assert ClassifyAll([noise]) == [n];
    Concat(st, ca + [n], cb);
    Concat(st, ca, [n]);
    Concat(st, ca, cb);
    One(After(st, ca), n);
  }

  // ---------- frames ----------

  /** A line `<name>: <value>`. */
  function FieldText(name: string, value: string): string {
    name + ": " + value
  }

  function DataLines(parts: seq<string>): (r: seq<string>)
    ensures |r| == |parts|
    ensures forall i :: 0 <= i < |parts| ==> r[i] == FieldText("data", parts[i])
  {
    seq(|parts|, i requires 0 <= i < |parts| => FieldText("data", parts[i]))
  }

  /** The lines of one event, in the order the gateway writes them. */
  function Encode(e: SseEvent): seq<string> {
    OpenFrame(e) + [""]
  }

  function StripAll(parts: seq<string>): (r: seq<string>)
    ensures |r| == |parts|
    ensures forall i :: 0 <= i < |parts| ==> r[i] == StripEol(parts[i])
  {
    seq(|parts|, i requires 0 <= i < |parts| => StripEol(parts[i]))
  }

  lemma {:induction false} StripAfterPrefix(prefix: string, value: string)
    requires prefix != "" && prefix[|prefix| - 1] !in "\r\n"
    ensures StripEol(prefix + value) == prefix + StripEol(value)
  {
    var s := prefix + value;
    if value != "" && value[|value| - 1] in "\r\n" {
      var shorter := value[..|value| - 1];
      assert s[..|s| - 1] == prefix + shorter;
      StripAfterPrefix(prefix, shorter);
    } else {
      assert s[|s| - 1] == if value == "" then prefix[|prefix| - 1] else value[|value| - 1];
    }
  }

  /** A line written as `<name>: <value>` is read back as that name and the stripped value. */
  lemma FieldLine(name: string, value: string)
    requires name != "" && ':' !in name
    ensures var line := StripEol(FieldText(name, value));
            && !StartsWith(line, ":") && line != ""
            && Field(line) == (name, StripEol(value))
  {
    StripAfterPrefix(name + ": ", value);
    var v := StripEol(value);
    assert name + ": " + v == name + [':'] + (" " + v);
    FieldOf(name, v);
  }

  lemma FieldOf(name: string, v: string)
    requires name != "" && ':' !in name
    ensures var line := name + [':'] + (" " + v);
            !StartsWith(line, ":") && line != "" && Field(line) == (name, v)
  {
    var rest := " " + v;
    var line := name + [':'] + rest;
    IndexOfAfter(name, ':', rest);
    assert line[..|name|] == name && line[|name| + 1..] == rest;
    assert rest[..1] == " " && rest[1..] == v;
    assert line[0] == name[0] && line[..1][0] == line[0];
  }

  /** What the name of a field makes of its value. */
  ghost function Named(name: string, value: string): Line {
    if name == "event" then EventField(value)
    else if name == "data" then DataField(value)
    else if name == "id" then IdField(value)
    else UnknownField
  }

  /** The other forms of a line: without a blank after the colon the value starts there, of several blanks only the
      first is dropped, a name alone has an empty value, and a line that starts with a colon is a comment. */
  lemma LineForms(name: string, value: string)
    requires name != "" && ':' !in name && StripEol(name) == name && StripEol(value) == value
    ensures !StartsWith(value, " ") ==> Classify(name + ":" + value) == Named(name, value)
    ensures Classify(name + ":  " + value) == Named(name, " " + value)
    ensures Classify(name) == Named(name, "")
    ensures Classify(":" + value) == Comment
    ensures Classify("") == Blank
  {
    NameAlone(name);
    if !StartsWith(value, " ") { NoBlank(name, value); }
    TwoBlanks(name, value);
    CommentLine(value);
  }

  lemma StartsElsewhere(line: string)
    requires line != "" && line[0] != ':'
    ensures !StartsWith(line, ":")
  {
    assert line[..1][0] == line[0];
  }

  lemma CommentLine(value: string)
    ensures Classify(":" + value) == Comment
  {
    assert ":"[0] == ':';
    StripAfterPrefix(":", value);
    assert (":" + StripEol(value))[..1] == ":";
  }

  lemma TwoBlanks(name: string, value: string)
    requires name != "" && ':' !in name && StripEol(value) == value
    ensures Classify(name + ":  " + value) == Named(name, " " + value)
  {
    assert " "[0] == ' ';
    StripAfterPrefix(" ", value);
    FieldIsNamed(name, " " + value);
    BlanksMove(name, value);
  }

  lemma FieldIsNamed(name: string, value: string)
    requires name != "" && ':' !in name && StripEol(value) == value
    ensures Classify(FieldText(name, value)) == Named(name, value)
  {
    FieldLine(name, value);
    NamedIs(FieldText(name, value), StripEol(FieldText(name, value)), name, value);
  }

  lemma NamedIs(raw: string, line: string, name: string, value: string)
    requires StripEol(raw) == line && !StartsWith(line, ":") && line != "" && Field(line) == (name, value)
    ensures Classify(raw) == Named(name, value)
  {
  }

  lemma BlanksMove(name: string, value: string)
    ensures FieldText(name, " " + value) == name + ":  " + value
  {
    var x, y := FieldText(name, " " + value), name + ":  " + value;
    assert |x| == |y| && forall i :: 0 <= i < |x| ==> x[i] == y[i];
  }

  lemma NameAlone(name: string)
    requires name != "" && ':' !in name && StripEol(name) == name
    ensures Classify(name) == Named(name, "")
  {
    assert name[0] in name;
    StartsElsewhere(name);
    assert IndexOf(name, ':') == |name|;
  }

  lemma NoBlank(name: string, value: string)
    requires name != "" && ':' !in name && StripEol(value) == value && !StartsWith(value, " ")
    ensures Classify(name + ":" + value) == Named(name, value)
  {
    var line := name + ":" + value;
    assert (name + ":")[|name|] == ':';
    StripAfterPrefix(name + ":", value);
    IndexOfAfter(name, ':', value);
    assert line == name + [':'] + value;
    assert line[..|name|] == name && line[|name| + 1..] == value;
    assert line[0] == name[0] && name[0] in name;
    StartsElsewhere(line);
  }

  lemma ClassifyEvent(v: string)
    ensures Classify(FieldText("event", v)) == EventField(StripEol(v))
  {
    FieldLine("event", v);
  }

  lemma ClassifyId(v: string)
    ensures Classify(FieldText("id", v)) == IdField(StripEol(v))
  {
    FieldLine("id", v);
  }

  lemma ClassifyData(v: string)
    ensures Classify(FieldText("data", v)) == DataField(StripEol(v))
  {
    FieldLine("data", v);
  }

  function DataFields(parts: seq<string>): (r: seq<Line>)
    ensures |r| == |parts|
    ensures forall i :: 0 <= i < |parts| ==> r[i] == DataField(parts[i])
  {
    seq(|parts|, i requires 0 <= i < |parts| => DataField(parts[i]))
  }

  lemma {:induction false} AfterDataFields(st: ParserState, parts: seq<string>)
    ensures After(st, DataFields(parts)) == st.(dataLines := st.dataLines + parts)
    ensures Emitted(st, DataFields(parts)) == []
    decreases |parts|
  {
    var fields := DataFields(parts);
    if parts == [] {
      assert st.dataLines + parts == st.dataLines;
    } else {
      var rest := parts[1..];
      assert fields[1..] == DataFields(rest);
      AfterDataFields(WithData(st, parts[0]), rest);
      assert Next(st, fields[0]) == WithData(st, parts[0]);
      assert st.dataLines + [parts[0]] + rest == st.dataLines + parts;
    }
  }

  function WithData(st: ParserState, v: string): ParserState {
    st.(dataLines := st.dataLines + [v])
  }

  /** What a frame turns into on the other side: each field without trailing line breaks. */
  function Received(e: SseEvent): SseEvent {
    SseEvent(StripEol(e.eventType), Join(StripAll(Split(e.data, '\n')), '\n'), StripEol(e.lastEventId))
  }

  function Head(e: SseEvent): seq<string> {
    [FieldText("event", e.eventType)] + [FieldText("id", e.lastEventId)]
  }

  function OpenFrame(e: SseEvent): seq<string> {
    Head(e) + DataLines(Split(e.data, '\n'))
  }

  lemma ClassifyOpenFrame(e: SseEvent)
    ensures ClassifyAll(OpenFrame(e)) ==
            [EventField(StripEol(e.eventType))] + [IdField(StripEol(e.lastEventId))] +
            DataFields(StripAll(Split(e.data, '\n')))
  {
    var parts := Split(e.data, '\n');
    ClassifyDataLines(parts);
    ClassifyHead(e);
    ClassifyConcat(Head(e), DataLines(parts));
  }

  lemma ClassifyHead(e: SseEvent)
    ensures ClassifyAll(Head(e)) == [EventField(StripEol(e.eventType))] + [IdField(StripEol(e.lastEventId))]
  {
    ClassifyEvent(e.eventType);
    ClassifyId(e.lastEventId);
    ClassifyTwo(FieldText("event", e.eventType), FieldText("id", e.lastEventId));
  }

  lemma ClassifyTwo(a: string, b: string)
    ensures ClassifyAll([a] + [b]) == [Classify(a)] + [Classify(b)]
  {
  }

  lemma ClassifyDataLines(parts: seq<string>)
    ensures ClassifyAll(DataLines(parts)) == DataFields(StripAll(parts))
  {
    forall i | 0 <= i < |parts| ensures Classify(DataLines(parts)[i]) == DataFields(StripAll(parts))[i] {
      ClassifyData(parts[i]);
    }
  }

  /** Feeding a frame up to its blank line fills the state and completes nothing. */
  lemma FeedOpenFrame(sticky: string, e: SseEvent)
    ensures var lines := ClassifyAll(OpenFrame(e));
            && Emitted(Idle(sticky), lines) == []
            && After(Idle(sticky), lines) ==
               ParserState(StripEol(e.eventType), StripAll(Split(e.data, '\n')), StripEol(e.lastEventId))
  {
    ClassifyOpenFrame(e);
    var parts := StripAll(Split(e.data, '\n'));
    var t, i := EventField(StripEol(e.eventType)), IdField(StripEol(e.lastEventId));
    var st0 := Idle(sticky);
    One(st0, t);
    One(Next(st0, t), i);
    Concat(st0, [t], [i]);
    AfterDataFields(Next(Next(st0, t), i), parts);
    assert [] + parts == parts;
    Concat(st0, [t] + [i], DataFields(parts));
  }

  lemma FeedFrame(sticky: string, e: SseEvent)
    ensures FeedAll(Idle(sticky), Encode(e)) == [Received(e)]
    ensures After(Idle(sticky), ClassifyAll(Encode(e))) == Idle(StripEol(e.lastEventId))
  {
    var open := ClassifyAll(OpenFrame(e));
    FeedOpenFrame(sticky, e);
    ClassifyConcat(OpenFrame(e), [""]);
    assert ClassifyAll([""]) == [Blank];
    Concat(Idle(sticky), open, [Blank]);
    One(After(Idle(sticky), open), Blank);
  }

  /** An unfinished frame completes no event. */
  lemma FeedPartialFrame(sticky: string, e: SseEvent, n: nat)
    requires n < |Encode(e)|
    ensures FeedAll(Idle(sticky), Encode(e)[..n]) == []
  {
    FeedOpenFrame(sticky, e);
    assert Encode(e)[..n] == OpenFrame(e)[..n];
    SilentPrefix(Idle(sticky), OpenFrame(e), n);
  }

  /** Lines that complete no event complete none when they are cut short. */
  lemma SilentPrefix(st: ParserState, lines: seq<string>, n: nat)
    requires n <= |lines| && FeedAll(st, lines) == []
    ensures FeedAll(st, lines[..n]) == []
  {
    assert lines[..n] + lines[n..] == lines;
    ClassifyConcat(lines[..n], lines[n..]);
    Concat(st, ClassifyAll(lines[..n]), ClassifyAll(lines[n..]));
  }

  lemma FeedAllConcat(st: ParserState, a: seq<string>, b: seq<string>)
    ensures FeedAll(st, a + b) == FeedAll(st, a) + FeedAll(After(st, ClassifyAll(a)), b)
  {
    ClassifyConcat(a, b);
    Concat(st, ClassifyAll(a), ClassifyAll(b));
  }

  /** A frame without an `id:` line: heartbeats and the gateway's non-durable events. */
  function EncodeIdless(eventType: string, data: string): seq<string> {
    OpenIdless(eventType, data) + [""]
  }

  function OpenIdless(eventType: string, data: string): seq<string> {
    [FieldText("event", eventType)] + DataLines(Split(data, '\n'))
  }

  lemma FeedOpenIdless(sticky: string, eventType: string, data: string)
    ensures var lines := ClassifyAll(OpenIdless(eventType, data));
            && Emitted(Idle(sticky), lines) == []
            && After(Idle(sticky), lines) == ParserState(StripEol(eventType), StripAll(Split(data, '\n')), sticky)
  {
    var parts := Split(data, '\n');
    ClassifyEvent(eventType);
    ClassifyDataLines(parts);
    var t := EventField(StripEol(eventType));
    ClassifyConcat([FieldText("event", eventType)], DataLines(parts));
    assert ClassifyAll([FieldText("event", eventType)]) == [t];
    var st := Idle(sticky);
    One(st, t);
    AfterDataFields(Next(st, t), StripAll(parts));
    assert [] + StripAll(parts) == StripAll(parts);
    Concat(st, [t], DataFields(StripAll(parts)));
  }

  /** Such a frame takes over the id of the frame before it: the id is sticky. */
  lemma FeedIdless(sticky: string, eventType: string, data: string)
    ensures FeedAll(Idle(sticky), EncodeIdless(eventType, data)) ==
            [SseEvent(StripEol(eventType), Join(StripAll(Split(data, '\n')), '\n'), sticky)]
    ensures After(Idle(sticky), ClassifyAll(EncodeIdless(eventType, data))) == Idle(sticky)
  {
    var open := ClassifyAll(OpenIdless(eventType, data));
    FeedOpenIdless(sticky, eventType, data);
    ClassifyConcat(OpenIdless(eventType, data), [""]);
    assert ClassifyAll([""]) == [Blank];
    Concat(Idle(sticky), open, [Blank]);
    One(After(Idle(sticky), open), Blank);
  }

  lemma FeedPartialIdless(sticky: string, eventType: string, data: string, n: nat)
    requires n < |EncodeIdless(eventType, data)|
    ensures FeedAll(Idle(sticky), EncodeIdless(eventType, data)[..n]) == []
  {
    FeedOpenIdless(sticky, eventType, data);
    assert EncodeIdless(eventType, data)[..n] == OpenIdless(eventType, data)[..n];
    SilentPrefix(Idle(sticky), OpenIdless(eventType, data), n);
  }

  // ---------- round trip ----------

  predicate EndsClean(s: string) {
    s == "" || s[|s| - 1] !in "\r\n"
  }

  /** The events that survive the wire: no field, and no line of the data, ends in a line break. */
  predicate Clean(e: SseEvent) {
    && EndsClean(e.eventType)
    && EndsClean(e.lastEventId)
    && forall i :: 0 <= i < |Split(e.data, '\n')| ==> EndsClean(Split(e.data, '\n')[i])
  }

  /** A frame arrives as the event it was made from exactly when the event is clean. */
  lemma RoundTripIffClean(sticky: string, e: SseEvent)
    ensures FeedAll(Idle(sticky), Encode(e)) == [e] <==> Clean(e)
  {
    FeedFrame(sticky, e);
    var parts := Split(e.data, '\n');
    JoinSplit(e.data, '\n');
    forall p | p in StripAll(parts) ensures '\n' !in p {
      var i :| 0 <= i < |parts| && StripEol(parts[i]) == p;
      assert parts[i] in parts;
    }
    SplitJoin(StripAll(parts), '\n');
    if Clean(e) {
      assert StripAll(parts) == parts;
    }
    if Received(e) == e {
      assert StripAll(parts) == parts;
      forall i | 0 <= i < |parts| ensures EndsClean(parts[i]) {
        assert StripAll(parts)[i] == parts[i];
      }
    }
  }

  function EncodeAll(es: seq<SseEvent>): seq<string> {
    if es == [] then [] else Encode(es[0]) + EncodeAll(es[1..])
  }

  /** Any list of clean events comes back unchanged: multi-line data, empty data and leading
      spaces included. */
  lemma {:induction false} RoundTrip(sticky: string, es: seq<SseEvent>)
    requires forall e :: e in es ==> Clean(e)
    ensures FeedAll(Idle(sticky), EncodeAll(es)) == es
    decreases |es|
  {
    if es != [] {
      var e := es[0];
      FeedFrame(sticky, e);
      RoundTripIffClean(sticky, e);
      FeedAllConcat(Idle(sticky), Encode(e), EncodeAll(es[1..]));
      RoundTrip(StripEol(e.lastEventId), es[1..]);
    }
  }
}
