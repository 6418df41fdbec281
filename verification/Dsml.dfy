/** The DSML tool-call parser: its text functions, one iteration of its loop, the loop
    itself, and the byte feeder in front of it. */
module Dsml {
  import opened Basics
  import opened Options
  import opened Text

  // The full-width vertical bar as its three UTF-8 bytes.
  const BAR := "\U{EF}\U{BD}\U{9C}"
  const START := "<" + BAR + "DSML" + BAR + "tool_calls>"
  const INVOKE_START := "<" + BAR + "DSML" + BAR + "invoke"
  const PARAM_START := "<" + BAR + "DSML" + BAR + "parameter"
  const CLOSE_START := "</" + BAR + "DSML" + BAR
  const SEARCH_TAIL_SIZE := 64

  datatype Arg = Arg(name: string, value: string, isString: bool)
  datatype Call = Call(name: string, args: seq<Arg>)
  // A call under construction; it has no name until an invoke tag has been seen.
  datatype OpenCall = OpenCall(name: Option<string>, args: seq<Arg>)

  const NoCall := OpenCall(None, [])

  datatype Phase = Search | Structural | ParamValue | Done | Error

  datatype Parser = Parser(
    phase: Phase,
    searchTail: string,
    raw: string,
    pos: nat,
    current: OpenCall,
    paramName: Option<string>,
    paramIsString: bool,
    valueStart: nat,
    calls: seq<Call>,
    error: string)
  {
    predicate Finished() {
      phase == Done || phase == Error
    }

    predicate Live() {
      phase == Structural || phase == ParamValue
    }

    /** The cursors lie inside the buffer, and a value under way starts at the cursor. */
    predicate Valid() {
      && pos <= |raw|
      && (phase == ParamValue ==> valueStart == pos)
    }

    function Append(x: string): Parser {
      this.(raw := raw + x)
    }

    /** What a caller can still observe: a finished parser's buffer no longer matters. */
    function Observed(): Parser {
      if Finished() then this.(raw := []) else this
    }
  }

  const Initial := Parser(Search, [], [], 0, NoCall, None, false, 0, [], [])

  // ---------- text functions ----------

  /** The offset just past a closing tag that starts with `prefix` at `i`, if there is one:
      the prefix, spaces, at most one bar, spaces, and the angle bracket. */
  function TagEnd(s: string, i: nat, prefix: string, bar: string): (r: Option<nat>)
    requires i <= |s|
    ensures r.Some? ==> i + |prefix| < r.value <= |s| && s[r.value - 1] == '>'
  {
    if !At(s, i, prefix) then None
    else
      var j := SkipSpace(s, i + |prefix|);
      var k := if At(s, j, bar) then j + |bar| else j;
      var m := SkipSpace(s, k);
      if m < |s| && s[m] == '>' then Some(m + 1) else None
  }

  function CloseTagEnd(s: string, i: nat, name: string): (r: Option<nat>)
    requires i <= |s|
    ensures r.Some? ==> i < r.value <= |s| && s[r.value - 1] == '>'
  {
    TagEnd(s, i, CLOSE_START + name, BAR)
  }

  /** The first closing tag for `name` at or after `i`: where it starts and ends. */
  function FindClose(s: string, i: nat, name: string): (r: Option<(nat, nat)>)
    requires i <= |s|
    ensures r.Some? ==> i <= r.value.0 < r.value.1 <= |s|
    ensures r.Some? ==> CloseTagEnd(s, r.value.0, name) == Some(r.value.1)
    ensures r.Some? ==> forall k :: i <= k < r.value.0 ==> CloseTagEnd(s, k, name).None?
    ensures r.None? ==> forall k :: i <= k <= |s| ==> CloseTagEnd(s, k, name).None?
    decreases |s| - i
  {
    var e := CloseTagEnd(s, i, name);
    if e.Some? then Some((i, e.value))
    else if i == |s| then None
    else FindClose(s, i + 1, name)
  }

  /** The value of the first `name="..."` attribute of a tag. */
  function ParseAttr(tag: string, name: string): Option<string> {
    var pat := name + "=\"";
    match FindSub(tag, 0, pat)
    case None => None
    case Some(k) =>
      var v := k + |pat|;
      match FindChar(tag, v, '"')
      case None => None
      case Some(e) => Some(tag[v..e])
  }

  // ---------- the parse loop ----------

  datatype StepResult = Stop(p: Parser) | Go(p: Parser)

  function Push(calls: seq<Call>, c: OpenCall): seq<Call> {
    if c.name.None? then calls else calls + [Call(c.name.value, c.args)]
  }

  function Cleared(c: OpenCall): OpenCall {
    if c.name.None? then c else NoCall
  }

  function Fail(p: Parser, msg: string): Parser {
    p.(phase := Error, error := msg)
  }

  /** One opening tag `raw[pos..pos + |tag|]`, already complete. */
  function OpenTag(p: Parser, tag: string): (r: StepResult)
    ensures r.p.raw == p.raw && (r.Stop? ==> r.p.phase == Error && r.p.pos == p.pos)
    ensures r.Go? ==> r.p.pos == p.pos + |tag| && (p.Live() ==> r.p.Live())
    ensures r.Go? && r.p.phase == ParamValue && p.phase != ParamValue ==> r.p.valueStart == r.p.pos
  {
    hide ParseAttr, At;
    if At(tag, 0, INVOKE_START) then
      var name := ParseAttr(tag, "name");
      var q := p.(current := OpenCall(name, []));
      if name.None? then Stop(Fail(q, "tool invoke without name"))
      else Go(q.(pos := p.pos + |tag|))
    else if At(tag, 0, PARAM_START) then
      var name := ParseAttr(tag, "name");
      var q := p.(paramName := name, paramIsString := ParseAttr(tag, "string") == Some("true"));
      if name.None? then Stop(Fail(q, "tool parameter without name"))
      else Go(q.(pos := p.pos + |tag|, valueStart := p.pos + |tag|, phase := ParamValue))
    else
      Stop(Fail(p, "unexpected DSML tag: " + tag[..Min(|tag|, 80)]))
  }

  function StepValue(p: Parser): (r: StepResult)
    requires p.phase == ParamValue && p.valueStart <= |p.raw|
    ensures r.Stop? ==> r.p == p
    ensures r.Go? ==> r.p.phase == Structural && r.p.raw == p.raw && p.valueStart < r.p.pos <= |p.raw|
  {
    hide CloseTagEnd;
    match FindClose(p.raw, p.valueStart, "parameter")
    case None => Stop(p)
    case Some((e, after)) =>
      var name := if p.paramName.Some? then p.paramName.value else "";
      var arg := Arg(name, p.raw[p.valueStart..e], p.paramIsString);
      Go(p.(current := p.current.(args := p.current.args + [arg]),
            paramName := None, pos := after, phase := Structural))
  }

  function StepStructural(p: Parser): (r: StepResult)
    requires p.phase == Structural && p.pos <= |p.raw|
    ensures r.p.Valid() && r.p.raw == p.raw && p.pos <= r.p.pos
    ensures r.Go? ==> r.p.Live() && p.pos < r.p.pos
  {
    hide TagEnd, CloseTagEnd, OpenTag;
    var pos := SkipSpace(p.raw, p.pos);
    var q := p.(pos := pos);
    if pos == |p.raw| then Stop(q)
    else
      var done := CloseTagEnd(p.raw, pos, "tool_calls");
      var close := CloseTagEnd(p.raw, pos, "invoke");
      if done.Some? then
        Stop(q.(calls := Push(p.calls, p.current), current := Cleared(p.current), pos := done.value, phase := Done))
      else if close.Some? then
        Go(q.(calls := Push(p.calls, p.current), current := Cleared(p.current), pos := close.value))
      else
        match FindChar(p.raw, pos, '>')
        case None => Stop(q)
        case Some(g) => OpenTag(q, p.raw[pos..g + 1])
  }

  /** One iteration of the parse loop. */
  function Step(p: Parser): (r: StepResult)
    requires p.Valid() && p.Live()
    ensures r.p.Valid() && r.p.raw == p.raw && p.pos <= r.p.pos
    ensures r.Go? ==> r.p.Live() && p.pos < r.p.pos
  {
    hide StepValue, StepStructural;
    if p.phase == ParamValue then StepValue(p) else StepStructural(p)
  }

  /** Parse as much of the buffer as possible. */
  function Parse(p: Parser): (q: Parser)
    requires p.Valid()
    ensures q.Valid() && q.raw == p.raw
    decreases |p.raw| - p.pos
  {
    if !p.Live() then p
    else
      match Step(p)
      case Stop(q) => q
      case Go(q) => Parse(q)
  }

  // ---------- feeding bytes ----------

  /** Seed the buffer with the canonical opening marker. */
  function Begin(p: Parser): Parser {
    p.(phase := Structural, searchTail := [], raw := p.raw + START, pos := |START|)
  }

  /** The last 64 bytes seen while looking for the opening marker. */
  function PushTail(tail: string, c: char): string {
    (if |tail| == SEARCH_TAIL_SIZE then tail[1..] else tail) + [c]
  }

  predicate EndsWith(s: string, suffix: string) {
    |suffix| <= |s| && s[|s| - |suffix|..] == suffix
  }

  function FeedByte(p: Parser, c: char): (q: Parser)
    requires p.Valid()
    ensures q.Valid()
  {
    if p.phase == Search then
      var q := p.(searchTail := PushTail(p.searchTail, c));
      if EndsWith(q.searchTail, START) then Begin(q) else q
    else Parse(p.Append([c]))
  }

  function FeedLoop(p: Parser, s: string): (q: Parser)
    requires p.Valid()
    ensures q.Valid()
    decreases |s|
  {
    if s == [] then p else FeedLoop(FeedByte(p, s[0]), s[1..])
  }

  /** One call of the feeder: a finished parser ignores it. */
  function Feed(p: Parser, s: string): (q: Parser)
    requires p.Valid()
    ensures q.Valid()
  {
    if p.Finished() then p else FeedLoop(p, s)
  }

  function FeedChunks(p: Parser, chunks: seq<string>): (q: Parser)
    requires p.Valid()
    ensures q.Valid()
    decreases |chunks|
  {
    if chunks == [] then p else FeedChunks(Feed(p, chunks[0]), chunks[1..])
  }
}
