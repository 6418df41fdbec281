/** The agent's single streaming state machine: the tag splitter in front, the marker detector
    behind it, and the DSML parser once a marker is complete.  The renderer is the sequence of
    calls it receives; colours and the tool visualiser are not part of this model. */
module AgentStream {
  import opened Text
  import opened TagSplitter
  import opened Dsml
  import opened DsmlResume
  import opened DsmlPrint
  import opened Detector

  type ValidParser = p: Parser | p.Valid() witness Initial

  const FULL_MARK := BAR + "DSML" + BAR
  const ASCII_MARK := "|DSML|"
  const THINK_TAIL_SIZE := 32

  const NOT_ALLOWED := "tool calling is not allowed inside <think></think>"
  const MALFORMED := "malformed tool call inside <think></think>"
  const UNFINISHED := "unfinished tool call inside <think></think>"

  // One call of the renderer: a byte, the blank line after thinking, or a notice.
  datatype Event = Shown(c: char, grey: bool) | Gap | Notice(msg: string)

  datatype Stream = Stream(
    inThink: bool,
    active: bool,       // inside a stanza
    ignored: bool,      // the stanza began inside thinking
    startTail: string,  // bytes held by the detector
    thinkTail: string,
    mark: bool,         // tool markup was seen inside thinking
    reported: bool,
    gap: bool,          // just after thinking, nothing shown yet
    parser: ValidParser,
    events: seq<Event>,
    thought: string)    // every byte read as thinking, for the record

  function Start0(inThink: bool): Stream {
    Stream(inThink, false, false, [], [], false, false, false, Initial, [], [])
  }

  function Show(t: string, grey: bool): seq<Event> {
    seq(|t|, i requires 0 <= i < |t| => Shown(t[i], grey))
  }

  function ShowBytes(s: Stream, t: string): Stream {
    s.(gap := false, events := s.events + Show(t, s.inThink))
  }

  /** Release whatever the detector holds. */
  function FlushTail(s: Stream): Stream {
    if s.startTail == [] then s else ShowBytes(s, s.startTail).(startTail := [])
  }

  function PushWindow(tail: string, c: char): string {
    (if |tail| == THINK_TAIL_SIZE then tail[1..] else tail) + [c]
  }

  /** Watch thinking bytes for tool markup. */
  function Note(s: Stream, c: char): Stream {
    if !s.inThink then s
    else
      var t := s.(thought := s.thought + [c]);
      if s.mark then t
      else
        var tail := PushWindow(s.thinkTail, c);
        t.(thinkTail := tail, mark := EndsWith(tail, FULL_MARK) || EndsWith(tail, ASCII_MARK))
  }

  function StartStanza(s: Stream): Stream {
    s.(active := true, ignored := s.inThink, mark := s.mark || s.inThink,
       startTail := [], gap := false, parser := Begin(s.parser))
  }

  function NormalByte(s0: Stream, c: char): Stream {
    var s := Note(s0, c);
    if s.gap && IsSpace(c) then s
    else if s.startTail == [] && c != '<' then ShowBytes(s, [c])
    else match DetectByte(s.startTail, c)
      case Hold(tail) => s.(startTail := tail)
      case Release(out, tail) => ShowBytes(s, out).(startTail := tail)
      case Found => StartStanza(s)
  }

  /** A stanza inside thinking is dropped whole and the parser starts over. */
  function DropStanza(s: Stream, msg: string): Stream {
    s.(mark := true, reported := true, events := s.events + [Notice(msg)],
       parser := Initial, active := false, ignored := false)
  }

  function StanzaByte(s0: Stream, c: char): Stream {
    var s := s0.(parser := Feed(s0.parser, [c]));
    if s.parser.phase == Done then
      if s.ignored then DropStanza(s, NOT_ALLOWED) else s.(active := false)
    else if s.parser.phase == Error then
      if s.ignored then DropStanza(s, MALFORMED) else s.(active := false)
    else s
  }

  function OpenThink(s: Stream): Stream {
    FlushTail(s).(gap := false, inThink := true)
  }

  function CloseThink(s: Stream): Stream {
    var t := FlushTail(s);
    t.(inThink := false, gap := true, events := t.events + [Gap])
  }

  function AnyByte(s: Stream, c: char): Stream {
    if s.active then StanzaByte(s, c) else NormalByte(s, c)
  }

  const AGENT: Hooks<Stream> := Hooks((s: Stream) => s.active, OpenThink, CloseThink, AnyByte)

  function Finish(s: Stream): Stream {
    var t := FlushTail(s).(gap := false);
    var u := if !t.active then t
             else if t.ignored then DropStanza(t, UNFINISHED)
             else t.(active := false);
    if u.mark && !u.reported then DropStanza(u, NOT_ALLOWED) else u
  }

  /** One call with one chunk. */
  function StreamText(st: Split<Stream>, text: string, finish: bool): Split<Stream> {
    var r := Process(AGENT, st, text, finish);
    if finish then r.(s := Finish(r.s)) else r
  }

  function StreamChunks(st: Split<Stream>, chunks: seq<string>): Split<Stream>
    decreases |chunks|
  {
    if chunks == [] then st else StreamChunks(StreamText(st, chunks[0], false), chunks[1..])
  }

  /** Any cut of a sampled text, then finishing, gives the same rendered bytes, thinking state
      and parsed calls as one finishing call on the whole text. */
  lemma {:induction false} StreamChunkIndependence(st: Split<Stream>, chunks: seq<string>)
    ensures StreamText(StreamChunks(st, chunks), [], true) == StreamText(st, Flatten(chunks), true)
  {
    hide Process, Finish;
    ChunksAreProcess(st, chunks);
    TagSplitter.ChunkIndependence(AGENT, st, chunks);
  }

  lemma {:induction false} ChunksAreProcess(st: Split<Stream>, chunks: seq<string>)
    ensures StreamChunks(st, chunks) == ProcessChunks(AGENT, st, chunks)
    decreases |chunks|
  {
    hide Process;
    if chunks != [] {
      ChunksAreProcess(StreamText(st, chunks[0], false), chunks[1..]);
    }
  }
}
