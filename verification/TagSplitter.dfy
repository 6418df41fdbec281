/** The splitter for thinking tags that may be cut across tokens.  The CLI, the evaluator and
    the agent run the same byte loop around different actions; the loop is stated once, over
    the actions, and its chunk independence proved once. */
module TagSplitter {
  import opened Text

  const OPEN := "<think>"
  const CLOSE := "</think>"
  const PENDING_SIZE := 16

  /** What the loop does on a state: `raw` says that tags are not looked for right now. */
  datatype Hooks<!S> = Hooks(raw: S -> bool, open: S -> S, close: S -> S, byte: (S, char) -> S)

  datatype Split<S> = Split(s: S, pending: string)

  /** `buf` is nonempty and a proper prefix of `tag`. */
  predicate Partial(buf: string, tag: string) {
    0 < |buf| < |tag| && At(tag, 0, buf)
  }

  predicate Held(buf: string) {
    Partial(buf, OPEN) || Partial(buf, CLOSE)
  }

  function Run<S>(h: Hooks<S>, s: S, buf: string, finish: bool): (r: Split<S>)
    ensures finish ==> r.pending == []
    ensures |r.pending| < PENDING_SIZE
    decreases |buf|
  {
    if buf == [] then Split(s, [])
    else if !h.raw(s) && At(buf, 0, OPEN) then Run(h, h.open(s), buf[|OPEN|..], finish)
    else if !h.raw(s) && At(buf, 0, CLOSE) then Run(h, h.close(s), buf[|CLOSE|..], finish)
    else if !finish && !h.raw(s) && Held(buf) then Split(s, buf)
    else Run(h, h.byte(s, buf[0]), buf[1..], finish)
  }

  /** One call with one chunk: the held bytes go in front of it. */
  function Process<S>(h: Hooks<S>, st: Split<S>, text: string, finish: bool): Split<S> {
    Run(h, st.s, st.pending + text, finish)
  }

  function ProcessChunks<S>(h: Hooks<S>, st: Split<S>, chunks: seq<string>): Split<S>
    decreases |chunks|
  {
    if chunks == [] then st else ProcessChunks(h, Process(h, st, chunks[0], false), chunks[1..])
  }

  lemma RunEmpty<S>(h: Hooks<S>, s: S, finish: bool)
    ensures Run(h, s, [], finish) == Split(s, [])
  {
  }

  lemma RunByte<S>(h: Hooks<S>, s: S, buf: string, finish: bool)
    requires buf != []
    requires h.raw(s) || (!At(buf, 0, OPEN) && !At(buf, 0, CLOSE) && (finish || !Held(buf)))
    ensures Run(h, s, buf, finish) == Run(h, h.byte(s, buf[0]), buf[1..], finish)
  {
  }

  lemma RunHeld<S>(h: Hooks<S>, s: S, buf: string)
    requires !h.raw(s) && Held(buf) && !At(buf, 0, OPEN) && !At(buf, 0, CLOSE)
    ensures Run(h, s, buf, false) == Split(s, buf)
  {
  }

  /** More bytes do not turn a settled position into a tag or a held one. */
  lemma SettledPrefix(a: string, b: string, tag: string)
    requires a != []
    ensures At(a, 0, tag) ==> At(a + b, 0, tag) && (a + b)[|tag|..] == a[|tag|..] + b
    ensures !At(a, 0, tag) && !Partial(a, tag) ==> !At(a + b, 0, tag) && !Partial(a + b, tag)
  {
    if |tag| <= |a| {
      assert (a + b)[..|tag|] == a[..|tag|];
    } else if Partial(a + b, tag) {
      assert tag[..|a|] == tag[..|a + b|][..|a|];
    } else if At(a + b, 0, tag) {
      assert tag[..|a|] == (a + b)[..|tag|][..|a|];
    }
  }

  /** A state that holds no settled tag waits; otherwise the loop does the same on a longer
      buffer: cutting the input anywhere and resuming changes nothing. */
  lemma {:induction false} RunResume<S>(h: Hooks<S>, s: S, a: string, b: string, finish: bool)
    ensures var r := Run(h, s, a, false);
            Run(h, s, a + b, finish) == Run(h, r.s, r.pending + b, finish)
    decreases |a|
  {
    hide At;
    if a == [] {
      assert a + b == b;
    } else {
      SettledPrefix(a, b, OPEN);
      SettledPrefix(a, b, CLOSE);
      if !h.raw(s) && At(a, 0, OPEN) {
        RunResume(h, h.open(s), a[|OPEN|..], b, finish);
      } else if !h.raw(s) && At(a, 0, CLOSE) {
        NotBoth(a + b);
        RunResume(h, h.close(s), a[|CLOSE|..], b, finish);
      } else if !h.raw(s) && Held(a) {
      } else {
        assert (a + b)[1..] == a[1..] + b;
        RunResume(h, h.byte(s, a[0]), a[1..], b, finish);
      }
    }
  }

  lemma NotBoth(s: string)
    requires At(s, 0, CLOSE)
    ensures !At(s, 0, OPEN)
  {
    AtChars(s, 0, CLOSE);
    NotAt(s, 0, OPEN, 1);
  }

  /** Chunk independence: any cut of the text, then finishing, equals one finishing call. */
  lemma {:induction false} ChunkIndependence<S>(h: Hooks<S>, st: Split<S>, chunks: seq<string>)
    ensures Process(h, ProcessChunks(h, st, chunks), [], true) == Process(h, st, Flatten(chunks), true)
    decreases |chunks|
  {
    hide Run;
    if chunks == [] {
      assert Flatten(chunks) == [];
    } else {
      var a, rest := chunks[0], chunks[1..];
      ChunkIndependence(h, Process(h, st, a, false), rest);
      RunResume(h, st.s, st.pending + a, Flatten(rest), true);
      assert st.pending + a + Flatten(rest) == st.pending + Flatten(chunks);
    }
  }

  // ---------- an independent reading of a whole text ----------

  datatype Piece = Opened | Closed | Byte(c: char)

  function Spelling(p: Piece): string {
    match p
    case Opened => OPEN
    case Closed => CLOSE
    case Byte(c) => [c]
  }

  function Spell(ps: seq<Piece>): string {
    if ps == [] then [] else Spelling(ps[0]) + Spell(ps[1..])
  }

  function Act<S>(h: Hooks<S>, s: S, p: Piece): S {
    match p
    case Opened => h.open(s)
    case Closed => h.close(s)
    case Byte(c) => h.byte(s, c)
  }

  function ActAll<S>(h: Hooks<S>, s: S, ps: seq<Piece>): S
    decreases |ps|
  {
    if ps == [] then s else ActAll(h, Act(h, s, ps[0]), ps[1..])
  }

  /** Pieces in which every tag is taken as a tag: no byte piece starts one. */
  ghost predicate Greedy(ps: seq<Piece>)
    decreases |ps|
  {
    ps == [] ||
    ((ps[0].Byte? ==> !At(Spell(ps), 0, OPEN) && !At(Spell(ps), 0, CLOSE)) && Greedy(ps[1..]))
  }

  /** Tags and bytes are conserved: a finished run acts on exactly one sequence of pieces, the
      one that spells the text and in which every tag is taken as a tag. */
  lemma {:induction false} RunIsPieces<S>(h: Hooks<S>, s: S, ps: seq<Piece>)
    requires forall x :: !h.raw(x)
    requires Greedy(ps)
    ensures Run(h, s, Spell(ps), true) == Split(ActAll(h, s, ps), [])
    decreases |ps|
  {
    if ps != [] {
      var rest := Spell(ps[1..]);
      RunIsPieces(h, Act(h, s, ps[0]), ps[1..]);
      var tag := Spelling(ps[0]);
      assert Spell(ps) == tag + rest;
      assert Spell(ps)[..|tag|] == tag && Spell(ps)[|tag|..] == rest;
      if ps[0].Closed? { NotBoth(Spell(ps)); }
    }
  }

  lemma FirstPiece(text: string) returns (p: Piece)
    requires text != []
    ensures 0 < |Spelling(p)| <= |text| && text == Spelling(p) + text[|Spelling(p)|..]
    ensures p.Byte? ==> !At(text, 0, OPEN) && !At(text, 0, CLOSE)
  {
    p := if At(text, 0, OPEN) then Opened else if At(text, 0, CLOSE) then Closed else Byte(text[0]);
  }

  lemma {:induction false} PiecesExist(text: string) returns (ps: seq<Piece>)
    ensures Greedy(ps) && Spell(ps) == text
    decreases |text|
  {
    if text == [] {
      ps := [];
    } else {
      hide At;
      var p := FirstPiece(text);
      var rest := PiecesExist(text[|Spelling(p)|..]);
      ps := [p] + rest;
      assert ps[1..] == rest;
    }
  }
}
