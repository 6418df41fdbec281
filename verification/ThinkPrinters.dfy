/** The two plain users of the tag splitter: the CLI's token printer, which greys thinking
    text, and the evaluator's stream, which keeps a style next to every visible byte. */
module ThinkPrinters {
  import opened Basics
  import opened Text
  import opened TagSplitter

  const GREY := "\U{1b}[90m"
  const RESET := "\U{1b}[0m"

  // ---------- CLI ----------

  datatype Cli = Cli(out: string, useColor: bool, inThink: bool, colorOpen: bool, lastNewline: bool) {
    /** Colour is open only while thinking text is being written. */
    ghost predicate Valid() {
      colorOpen ==> useColor && inThink
    }
  }

  function CliOpen(s: Cli): Cli {
    s.(inThink := true)
  }

  function CliReset(s: Cli): Cli {
    if s.useColor && s.colorOpen then s.(out := s.out + RESET, colorOpen := false) else s
  }

  function CliClose(s: Cli): Cli {
    var t := CliReset(s.(inThink := false));
    if t.lastNewline then t else t.(out := t.out + "\n", lastNewline := true)
  }

  function CliGrey(s: Cli): Cli {
    if s.useColor && !s.colorOpen then s.(out := s.out + GREY, colorOpen := true) else s
  }

  function CliByte(s: Cli, c: char): Cli {
    var t := if s.inThink then CliGrey(s) else s;
    t.(out := t.out + [c], lastNewline := c == '\n')
  }

  const CLI: Hooks<Cli> := Hooks(s => false, CliOpen, CliClose, CliByte)

  /** What a whole answer looks like without colour: tags are gone, and a newline stands where
      thinking ends unless one was just written. */
  function Visible(ps: seq<Piece>, lastNewline: bool): string
    decreases |ps|
  {
    if ps == [] then []
    else match ps[0]
      case Opened => Visible(ps[1..], lastNewline)
      case Closed => (if lastNewline then "" else "\n") + Visible(ps[1..], true)
      case Byte(c) => [c] + Visible(ps[1..], c == '\n')
  }

  lemma {:induction false} CliShows(s: Cli, ps: seq<Piece>)
    requires !s.useColor
    ensures ActAll(CLI, s, ps).out == s.out + Visible(ps, s.lastNewline)
    decreases |ps|
  {
    if ps != [] {
      CliShows(Act(CLI, s, ps[0]), ps[1..]);
    }
  }

  // ---------- what a terminal makes of the escape codes ----------

  const ESC := '\U{1b}'

  /** The visible bytes of an output, each with whether it appears grey. */
  function Terminal(s: string, grey: bool): seq<(char, bool)> {
    if s == [] then []
    else if At(s, 0, GREY) then Terminal(s[|GREY|..], true)
    else if At(s, 0, RESET) then Terminal(s[|RESET|..], false)
    else [(s[0], grey)] + Terminal(s[1..], grey)
  }

  /** What one piece should make appear: a thinking byte grey, any other byte plain, and a plain
      newline where thinking ends unless one was just written. */
  function PieceCells(p: Piece, inThink: bool, lastNewline: bool): seq<(char, bool)> {
    match p
    case Opened => []
    case Closed => if lastNewline then [] else [('\n', false)]
    case Byte(c) => [(c, inThink)]
  }

  function ThinkAfter(p: Piece, inThink: bool): bool {
    match p case Opened => true case Closed => false case Byte(_) => inThink
  }

  function NewlineAfter(p: Piece, lastNewline: bool): bool {
    match p case Opened => lastNewline case Closed => true case Byte(c) => c == '\n'
  }

  function Cells(ps: seq<Piece>, inThink: bool, lastNewline: bool): seq<(char, bool)>
    decreases |ps|
  {
    if ps == [] then []
    else
      PieceCells(ps[0], inThink, lastNewline) +
      Cells(ps[1..], ThinkAfter(ps[0], inThink), NewlineAfter(ps[0], lastNewline))
  }

  ghost predicate NoEscape(ps: seq<Piece>) {
    forall i :: 0 <= i < |ps| && ps[i].Byte? ==> ps[i].c != ESC
  }

  lemma TerminalByte(c: char, rest: string, grey: bool)
    requires c != ESC
    ensures Terminal([c] + rest, grey) == [(c, grey)] + Terminal(rest, grey)
  {
    var s := [c] + rest;
    NotAt(s, 0, GREY, 0);
    NotAt(s, 0, RESET, 0);
    assert s[1..] == rest;
  }

  lemma TerminalCodes(rest: string, grey: bool)
    ensures Terminal(GREY + rest, grey) == Terminal(rest, true)
    ensures Terminal(RESET + rest, grey) == Terminal(rest, false)
  {
    var g, r := GREY + rest, RESET + rest;
    assert g[0..|GREY|] == GREY && g[|GREY|..] == rest;
    assert r[0..|RESET|] == RESET && r[|RESET|..] == rest;
    assert r[2] == RESET[2] != GREY[2];
    NotAt(r, 0, GREY, 2);
  }

  /** What one piece adds to the output does not depend on what was written before. */
  lemma CliAppends(s: Cli, p: Piece)
    ensures var t, u := Act(CLI, s, p), Act(CLI, s.(out := []), p);
            t.out == s.out + u.out && u == t.(out := u.out)
  {
  }

  lemma {:induction false} CliAllAppend(s: Cli, ps: seq<Piece>)
    ensures ActAll(CLI, s, ps).out == s.out + ActAll(CLI, s.(out := []), ps).out
    decreases |ps|
  {
    hide Act;
    if ps != [] {
      var t, u := Act(CLI, s, ps[0]), Act(CLI, s.(out := []), ps[0]);
      CliAppends(s, ps[0]);
      CliAllAppend(t, ps[1..]);
      CliAllAppend(u, ps[1..]);
      assert t.(out := []) == u.(out := []);
    }
  }

  lemma ActAfter(s: Cli, p: Piece)
    requires s.Valid()
    ensures var t := Act(CLI, s, p);
            && t.Valid() && t.useColor == s.useColor
            && t.inThink == ThinkAfter(p, s.inThink) && t.lastNewline == NewlineAfter(p, s.lastNewline)
  {
  }

  lemma ClosePaints(s: Cli, rest: string)
    requires s.Valid() && s.useColor && s.out == []
    ensures Terminal(CliClose(s).out + rest, s.colorOpen) ==
            PieceCells(Closed, s.inThink, s.lastNewline) + Terminal(rest, CliClose(s).colorOpen)
  {
    hide Terminal;
    TerminalByte('\n', rest, false);
    if s.lastNewline {
      if s.colorOpen {
        TerminalCodes(rest, true);
        assert CliClose(s).out == RESET;
      } else {
        assert CliClose(s).out + rest == rest;
      }
    } else if s.colorOpen {
      TerminalCodes(['\n'] + rest, true);
      assert CliClose(s).out == RESET + ['\n'];
      Regroup(RESET, ['\n'], rest);
    } else {
      assert CliClose(s).out == ['\n'];
    }
  }

  lemma BytePaints(s: Cli, c: char, rest: string)
    requires s.Valid() && s.useColor && s.out == [] && c != ESC
    ensures Terminal(CliByte(s, c).out + rest, s.colorOpen) ==
            PieceCells(Byte(c), s.inThink, s.lastNewline) + Terminal(rest, CliByte(s, c).colorOpen)
  {
    hide Terminal;
    TerminalByte(c, rest, s.inThink);
    if s.inThink && !s.colorOpen {
      TerminalCodes([c] + rest, false);
      assert CliByte(s, c).out == GREY + [c];
      Regroup(GREY, [c], rest);
    } else {
      assert CliByte(s, c).out == [c];
    }
  }

  /** The codes of one piece, in front of anything. */
  lemma PiecePaints(s: Cli, p: Piece, rest: string)
    requires s.Valid() && s.useColor && s.out == [] && (p.Byte? ==> p.c != ESC)
    ensures Terminal(Act(CLI, s, p).out + rest, s.colorOpen) ==
            PieceCells(p, s.inThink, s.lastNewline) + Terminal(rest, Act(CLI, s, p).colorOpen)
  {
    hide Terminal, CliByte, CliClose;
    match p
    case Opened => assert [] + rest == rest;
    case Closed => ClosePaints(s, rest);
    case Byte(c) => BytePaints(s, c, rest);
  }

  /** With colour on, a terminal shows every thinking byte grey and every other byte plain. */
  lemma {:induction false} CliPaints(s: Cli, ps: seq<Piece>)
    requires s.Valid() && s.useColor && s.out == [] && NoEscape(ps)
    ensures Terminal(ActAll(CLI, s, ps).out, s.colorOpen) == Cells(ps, s.inThink, s.lastNewline)
    decreases |ps|
  {
    hide Act, Terminal, PieceCells, ThinkAfter, NewlineAfter;
    if ps == [] {
      NothingPainted(s.colorOpen);
    } else {
      var t := Act(CLI, s, ps[0]);
      var u := t.(out := []);
      ActAfter(s, ps[0]);
      CliAllAppend(t, ps[1..]);
      CliPaints(u, ps[1..]);
      PiecePaints(s, ps[0], ActAll(CLI, u, ps[1..]).out);
    }
  }

  lemma NothingPainted(grey: bool)
    ensures Terminal([], grey) == []
  {
  }

  function Plain(cells: seq<(char, bool)>): string {
    seq(|cells|, i requires 0 <= i < |cells| => cells[i].0)
  }

  lemma PlainAppend(a: seq<(char, bool)>, b: seq<(char, bool)>)
    ensures Plain(a + b) == Plain(a) + Plain(b)
  {
  }

  lemma PieceVisible(ps: seq<Piece>, inThink: bool, lastNewline: bool)
    requires ps != []
    ensures Visible(ps, lastNewline) ==
            Plain(PieceCells(ps[0], inThink, lastNewline)) + Visible(ps[1..], NewlineAfter(ps[0], lastNewline))
  {
    var rest := Visible(ps[1..], NewlineAfter(ps[0], lastNewline));
    assert [] + rest == rest;
    assert Plain([('\n', false)]) == "\n" && Plain([]) == [];
    assert ps[0].Byte? ==> Plain([(ps[0].c, inThink)]) == [ps[0].c];
  }

  /** Without their colours those are the bytes that the printer shows without colour. */
  lemma {:induction false} CellsAreVisible(ps: seq<Piece>, inThink: bool, lastNewline: bool)
    ensures Plain(Cells(ps, inThink, lastNewline)) == Visible(ps, lastNewline)
    decreases |ps|
  {
    hide Plain, PieceCells, ThinkAfter, NewlineAfter;
    if ps == [] {
      assert Plain([]) == [] by { NothingPlain(); }
    } else {
      var after, line := ThinkAfter(ps[0], inThink), NewlineAfter(ps[0], lastNewline);
      CellsAreVisible(ps[1..], after, line);
      PlainAppend(PieceCells(ps[0], inThink, lastNewline), Cells(ps[1..], after, line));
      PieceVisible(ps, inThink, lastNewline);
    }
  }

  lemma NothingPlain()
    ensures Plain([]) == []
  {
  }

  /** So for any chunking of a text free of escape bytes. */
  lemma {:induction false} CliPaintsChunks(s: Cli, chunks: seq<string>, ps: seq<Piece>)
    requires s.Valid() && s.useColor && s.out == [] && NoEscape(ps)
    requires Greedy(ps) && Spell(ps) == Flatten(chunks)
    ensures var r := Process(CLI, ProcessChunks(CLI, Split(s, []), chunks), [], true);
            r.pending == [] && Terminal(r.s.out, s.colorOpen) == Cells(ps, s.inThink, s.lastNewline)
  {
    hide Run, Greedy, Terminal, Cells;
    ChunkIndependence(CLI, Split(s, []), chunks);
    assert [] + Flatten(chunks) == Flatten(chunks);
    RunIsPieces(CLI, s, ps);
    CliPaints(s, ps);
  }

  class TokenPrinter {
    const useColor: bool
    var out: string
    var inThink: bool
    var colorOpen: bool
    var lastNewline: bool
    var pending: string

    ghost function St(): Split<Cli>
      reads this
    {
      Split(Cli(out, useColor, inThink, colorOpen, lastNewline), pending)
    }

    constructor (useColor: bool, inThink: bool)
      ensures St() == Split(Cli([], useColor, inThink, false, true), [])
    {
      this.useColor, this.inThink := useColor, inThink;
      out, colorOpen, lastNewline, pending := [], false, true, [];
    }

    method ResetColor()
      modifies `out, `colorOpen
      ensures St().s == CliReset(old(St().s))
    {
      if useColor && colorOpen {
        out, colorOpen := out + RESET, false;
      }
    }

    method WriteChar(c: char)
      modifies `out, `colorOpen, `lastNewline
      ensures St().s == CliByte(old(St().s), c)
    {
      if inThink && useColor && !colorOpen {
        out, colorOpen := out + GREY, true;
      }
      out := out + [c];
      lastNewline := c == '\n';
    }

    /** One chunk of sampled text. */
    method ProcessText(text: string, finish: bool)
      modifies this
      ensures St() == Process(CLI, old(St()), text, finish)
    {
      hide At;
      var buf := pending + text;
      pending := [];
      var i := 0;
      while i < |buf|
        invariant 0 <= i <= |buf| && pending == []
        invariant Run(CLI, St().s, buf[i..], finish) == Run(CLI, old(St().s), buf, finish)
      {
        var cur := buf[i..];
        assert cur[1..] == buf[i + 1..];
        if At(cur, 0, OPEN) {
          AtInside(cur, 0, OPEN);
          assert cur[|OPEN|..] == buf[i + |OPEN|..];
          inThink := true;
          i := i + |OPEN|;
          continue;
        }
        if At(cur, 0, CLOSE) {
          AtInside(cur, 0, CLOSE);
          assert cur[|CLOSE|..] == buf[i + |CLOSE|..];
          inThink := false;
          ResetColor();
          if !lastNewline {
            out, lastNewline := out + "\n", true;
          }
          i := i + |CLOSE|;
          continue;
        }
        if !finish && (Partial(cur, OPEN) || Partial(cur, CLOSE)) {
          if |cur| < PENDING_SIZE { pending := cur; }
          return;
        }
        WriteChar(cur[0]);
        i := i + 1;
      }
    }
  }

  // ---------- evaluator ----------

  datatype Eval = Eval(text: string, styles: seq<nat>, inThink: bool)

  function EvalShow(s: Eval, t: string): Eval {
    s.(text := s.text + t, styles := s.styles + seq(|t|, _ => if s.inThink then 1 else 0))
  }

  function EvalOpen(s: Eval): Eval {
    s.(inThink := true)
  }

  function EvalClose(s: Eval): Eval {
    EvalShow(s.(inThink := false), "\n")
  }

  function EvalByte(s: Eval, c: char): Eval {
    EvalShow(s, [c])
  }

  const EVAL: Hooks<Eval> := Hooks(s => false, EvalOpen, EvalClose, EvalByte)

  function Shown(ps: seq<Piece>): string {
    if ps == [] then []
    else (match ps[0] case Opened => "" case Closed => "\n" case Byte(c) => [c]) + Shown(ps[1..])
  }

  function Styles(ps: seq<Piece>, inThink: bool): seq<nat>
    decreases |ps|
  {
    if ps == [] then []
    else match ps[0]
      case Opened => Styles(ps[1..], true)
      case Closed => [0] + Styles(ps[1..], false)
      case Byte(c) => [if inThink then 1 else 0] + Styles(ps[1..], inThink)
  }

  /** The style buffer stays in step with the text: one style a byte, 1 exactly in thinking. */
  lemma {:induction false} EvalStylesInStep(s: Eval, ps: seq<Piece>)
    requires |s.styles| == |s.text|
    ensures var t := ActAll(EVAL, s, ps);
            && t.text == s.text + Shown(ps)
            && t.styles == s.styles + Styles(ps, s.inThink)
            && |t.styles| == |t.text|
    decreases |ps|
  {
    if ps != [] {
      EvalStylesInStep(Act(EVAL, s, ps[0]), ps[1..]);
    }
  }

  /** Any chunking of a text leaves exactly the bytes and styles of its pieces. */
  lemma {:induction false} EvalChunks(s: Eval, chunks: seq<string>, ps: seq<Piece>)
    requires |s.styles| == |s.text|
    requires Greedy(ps) && Spell(ps) == Flatten(chunks)
    ensures var r := Process(EVAL, ProcessChunks(EVAL, Split(s, []), chunks), [], true);
            && r.pending == []
            && r.s.text == s.text + Shown(ps)
            && r.s.styles == s.styles + Styles(ps, s.inThink)
  {
    hide Run, Greedy;
    ChunkIndependence(EVAL, Split(s, []), chunks);
    assert [] + Flatten(chunks) == Flatten(chunks);
    RunIsPieces(EVAL, s, ps);
    EvalStylesInStep(s, ps);
  }

  /** The same for the CLI without colour. */
  lemma {:induction false} CliChunks(s: Cli, chunks: seq<string>, ps: seq<Piece>)
    requires !s.useColor
    requires Greedy(ps) && Spell(ps) == Flatten(chunks)
    ensures var r := Process(CLI, ProcessChunks(CLI, Split(s, []), chunks), [], true);
            && r.pending == []
            && r.s.out == s.out + Visible(ps, s.lastNewline)
  {
    hide Run, Greedy;
    ChunkIndependence(CLI, Split(s, []), chunks);
    assert [] + Flatten(chunks) == Flatten(chunks);
    RunIsPieces(CLI, s, ps);
    CliShows(s, ps);
  }

  class EvalStream {
    var text: string
    var styles: seq<nat>
    var inThink: bool
    var pending: string

    ghost function St(): Split<Eval>
      reads this
    {
      Split(Eval(text, styles, inThink), pending)
    }

    constructor (inThink: bool)
      ensures St() == Split(Eval([], [], inThink), [])
    {
      text, styles, this.inThink, pending := [], [], inThink, [];
    }

    method AppendVisible(t: string)
      modifies `text, `styles
      ensures St().s == EvalShow(old(St().s), t)
    {
      var style := if inThink then 1 else 0;
      text := text + t;
      styles := styles + seq(|t|, _ => style);
      assert styles == EvalShow(old(St().s), t).styles;
    }

    method AppendTokenText(token: string, finish: bool)
      modifies this
      ensures St() == Process(EVAL, old(St()), token, finish)
    {
      hide At;
      var buf := pending + token;
      pending := [];
      var i := 0;
      while i < |buf|
        invariant 0 <= i <= |buf| && pending == []
        invariant Run(EVAL, St().s, buf[i..], finish) == Run(EVAL, old(St().s), buf, finish)
      {
        var cur := buf[i..];
        assert cur[1..] == buf[i + 1..];
        if At(cur, 0, OPEN) {
          AtInside(cur, 0, OPEN);
          assert cur[|OPEN|..] == buf[i + |OPEN|..];
          inThink := true;
          i := i + |OPEN|;
          continue;
        }
        if At(cur, 0, CLOSE) {
          AtInside(cur, 0, CLOSE);
          assert cur[|CLOSE|..] == buf[i + |CLOSE|..];
          inThink := false;
          AppendVisible("\n");
          i := i + |CLOSE|;
          continue;
        }
        if !finish && (Partial(cur, OPEN) || Partial(cur, CLOSE)) {
          if |cur| < PENDING_SIZE { pending := cur; }
          return;
        }
        AppendVisible([cur[0]]);
        i := i + 1;
      }
    }
  }
}
