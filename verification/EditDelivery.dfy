/** What the agent has heard when a line/range edit is checked.  The calls of a stanza all run
    before any of their results is delivered, and a result may be cut at the size of the text
    buffer, replaced by an error or dropped; the views of module EditTools know nothing of that. */
module EditDelivery {
  import opened Basics
  import opened Options
  import opened LineSplit
  import opened FileView
  import opened EditTools

  // How much of the combined result of a stanza reaches the agent: all of it, or so many of the
  // displayed lines in front of a cut.  A result that is replaced or dropped is cut at once.
  datatype Delivery = Whole | FirstLines(n: nat)

  // The calls of one stanza, with what happens outside meanwhile.
  datatype Block = Block(ops: seq<Op>, delivery: Delivery)

  // The world between two stanzas, and what of its record has reached the agent.
  datatype Talk = Talk(w: World, heard: seq<Told>)

  /** Only the first `n` displayed lines of all; the agent knows the text it wrote in any case. */
  function Cut(told: seq<Told>, n: nat): seq<Told> {
    if told == [] then []
    else
      var k := Min(n, |told[0].shown|);
      [told[0].(shown := told[0].shown[..k])] + Cut(told[1..], n - k)
  }

  function Deliver(told: seq<Told>, d: Delivery): seq<Told> {
    if d.Whole? then told else Cut(told, d.n)
  }

  /** What has been told between two worlds of a run. */
  function Since(w: World, x: World): seq<Told> {
    if |w.seen| <= |x.seen| then x.seen[|w.seen|..] else []
  }

  function Step(c: Talk, s: Block): Talk {
    var x := Run(c.w, s.ops);
    Talk(x, c.heard + Deliver(Since(c.w, x), s.delivery))
  }

  function Converse(c: Talk, past: seq<Block>): Talk
    decreases |past|
  {
    if past == [] then c else Converse(Step(c, past[0]), past[1..])
  }

  function Start(files: map<string, string>): Talk {
    Talk(World(files, map[], []), [])
  }

  /** What the agent knows while a stanza has run `ops` so far: everything delivered before, and
      the text it supplied itself. */
  function KnownIn(c: Talk, ops: seq<Op>): seq<Told> {
    c.heard + Cut(Since(c.w, Run(c.w, ops)), 0)
  }

  /** The call puts lines of `path` into its result. */
  predicate Shows(op: Op, path: string) {
    op.path == path && !op.Write? && !op.Outside? && !(op.Read? && op.bare)
  }

  predicate Quiet(ops: seq<Op>, path: string) {
    forall i :: 0 <= i < |ops| ==> !Shows(ops[i], path)
  }

  /** The guard keeps its word about a range: if it lets the range pass, each of its lines has
      the checksum that this line number had in something the agent knows. */
  ghost predicate Kept(files: map<string, string>, past: seq<Block>, ops: seq<Op>,
                       path: string, first: int, last: int)
  {
    var c := Converse(Start(files), past);
    var w := Run(c.w, ops);
    RangeRefusal(w, path, first, last).None? ==>
      && path in w.files && 1 <= first <= last <= |Lines(w.files[path])|
      && forall i :: first - 1 <= i < last ==> SeenLine(KnownIn(c, ops), path, i, Sum(Lines(w.files[path])[i]))
  }

  function Deliveries(past: seq<Block>): seq<Delivery> {
    seq(|past|, i requires 0 <= i < |past| => past[i].delivery)
  }

  // ---------- the record only grows ----------

  /** A call adds at most one entry, about its own path, and shows nothing of a path it is
      quiet about. */
  lemma ApplyTells(w: World, op: Op) returns (told: seq<Told>)
    ensures Apply(w, op).0.seen == w.seen + told && |told| <= 1
    ensures forall k :: 0 <= k < |told| ==>
              told[k].path == op.path && (!Shows(op, op.path) ==> told[k].shown == [])
  {
    hide Lines, VerifyFrom, ReadRange, Context, AfterEdit, AfterOldNew, ShownAround, LinesWithin, LineFor, Splice;
    hide AcceptedAt;
    var x := Apply(w, op).0.seen;
    told := if x == w.seen then [] else [x[|x| - 1]];
  }

  lemma {:induction false} RunTells(w: World, ops: seq<Op>) returns (told: seq<Told>)
    ensures Run(w, ops).seen == w.seen + told && told == Since(w, Run(w, ops))
    ensures forall path, k :: Quiet(ops, path) && 0 <= k < |told| && told[k].path == path ==> told[k].shown == []
    decreases |ops|
  {
    hide Apply, Shows;
    told := [];
    if ops != [] {
      var first := ApplyTells(w, ops[0]);
      var rest := RunTells(Apply(w, ops[0]).0, ops[1..]);
      told := first + rest;
      assert w.seen + first + rest == w.seen + told;
      forall path, k | Quiet(ops, path) && 0 <= k < |told| && told[k].path == path ensures told[k].shown == [] {
        assert !Shows(ops[0], path);
        assert Quiet(ops[1..], path);
        if k >= |first| { assert told[k] == rest[k - |first|]; }
      }
    }
  }

  // ---------- what reaches the agent ----------

  /** `h` is `t` with only some first part of its displayed lines. */
  ghost predicate PartOf(h: Told, t: Told) {
    h == t.(shown := h.shown) && h.shown <= t.shown
  }

  ghost predicate PartsOf(hs: seq<Told>, ts: seq<Told>) {
    |hs| == |ts| && forall k :: 0 <= k < |hs| ==> PartOf(hs[k], ts[k])
  }

  lemma {:induction false} CutParts(told: seq<Told>, n: nat)
    ensures PartsOf(Cut(told, n), told)
    ensures n == 0 ==> forall k :: 0 <= k < |told| ==> Cut(told, n)[k].shown == []
    decreases |told|
  {
    if told != [] { CutParts(told[1..], n - Min(n, |told[0].shown|)); }
  }

  lemma PartsAppend(hs: seq<Told>, ts: seq<Told>, more: seq<Told>, all: seq<Told>)
    requires PartsOf(hs, ts) && PartsOf(more, all)
    ensures PartsOf(hs + more, ts + all)
  {
  }

  /** Between stanzas: the agent has heard some part of every entry of the record, and all of it
      when every result was delivered whole. */
  ghost predicate Follows(c: Talk, whole: bool) {
    PartsOf(c.heard, c.w.seen) && (whole ==> c.heard == c.w.seen)
  }

  lemma StepFollows(c: Talk, s: Block, whole: bool)
    requires Follows(c, whole)
    ensures Follows(Step(c, s), whole && s.delivery == Whole)
  {
    hide Run, Cut, PartOf;
    var told := RunTells(c.w, s.ops);
    AllParts(told);
    if s.delivery.FirstLines? { CutParts(told, s.delivery.n); }
    PartsAppend(c.heard, c.w.seen, Deliver(told, s.delivery), told);
  }

  lemma AllParts(ts: seq<Told>)
    ensures PartsOf(ts, ts)
  {
  }

  lemma {:induction false} ConverseFollows(c: Talk, past: seq<Block>, whole: bool)
    requires Follows(c, whole)
    ensures Follows(Converse(c, past), whole && forall k :: 0 <= k < |past| ==> past[k].delivery == Whole)
    decreases |past|
  {
    hide Follows, Step;
    if past != [] {
      StepFollows(c, past[0], whole);
      ConverseFollows(Step(c, past[0]), past[1..], whole && past[0].delivery == Whole);
      assert forall k :: 0 <= k < |past[1..]| ==> past[1..][k] == past[k + 1];
    }
  }

  /** A conversation is a run of all its calls. */
  lemma {:induction false} ConverseIsRun(c: Talk, past: seq<Block>) returns (ops: seq<Op>)
    ensures Converse(c, past).w == Run(c.w, ops)
    decreases |past|
  {
    hide Run;
    if past == [] {
      ops := [];
      assert Run(c.w, []) == c.w by { NoOps(c.w); }
    } else {
      var rest := ConverseIsRun(Step(c, past[0]), past[1..]);
      ops := past[0].ops + rest;
      RunAppend(c.w, past[0].ops, rest);
    }
  }

  lemma NoOps(w: World)
    ensures Run(w, []) == w
  {
  }

  lemma {:induction false} RunAppend(w: World, a: seq<Op>, b: seq<Op>)
    ensures Run(w, a + b) == Run(Run(w, a), b)
    decreases |a|
  {
    hide Apply;
    if a == [] {
      assert a + b == b;
    } else {
      assert (a + b)[1..] == a[1..] + b;
      RunAppend(Apply(w, a[0]).0, a[1..], b);
    }
  }

  // ---------- the guard's word ----------

  /** A call displayed line `i` of `path`, with checksum `e`, in a result that has not reached
      the agent so far. */
  ghost predicate Missed(c: Talk, ops: seq<Op>, path: string, i: nat, e: Option<bv32>) {
    var seen, known := Run(c.w, ops).seen, KnownIn(c, ops);
    exists k :: 0 <= k < |seen| && k < |known| && seen[k].path == path && Tells(seen[k], i, e)
                && i in seen[k].shown && i !in known[k].shown
  }

  lemma KnownFollows(files: map<string, string>, past: seq<Block>, ops: seq<Op>)
    ensures var c := Converse(Start(files), past);
            && PartsOf(KnownIn(c, ops), Run(c.w, ops).seen)
            && |c.w.seen| <= |Run(c.w, ops).seen|
  {
    hide Run, Converse, Cut, PartOf;
    var c := Converse(Start(files), past);
    ConverseFollows(Start(files), past, true);
    var told := RunTells(c.w, ops);
    CutParts(told, 0);
    PartsAppend(c.heard, c.w.seen, Cut(told, 0), told);
  }

  /** In every conversation, whatever was delivered: each line of a range that passes has the
      checksum that this line number had in something the agent knows, or in a result that it
      missed. */
  lemma {:induction false} PassedKnownOrMissed(files: map<string, string>, past: seq<Block>, ops: seq<Op>,
                                               path: string, first: int, last: int)
    ensures var c := Converse(Start(files), past);
            var w := Run(c.w, ops);
            RangeRefusal(w, path, first, last).None? ==>
              && path in w.files && 1 <= first <= last <= |Lines(w.files[path])|
              && forall i :: first - 1 <= i < last ==>
                   var e := Sum(Lines(w.files[path])[i]);
                   SeenLine(KnownIn(c, ops), path, i, e) || Missed(c, ops, path, i, e)
  {
    hide Run, Converse, Lines, Sum, RangeRefusal, Cut, SeenLine, Missed, KnownIn;
    var c := Converse(Start(files), past);
    var w := Run(c.w, ops);
    var before := ConverseIsRun(Start(files), past);
    RunAppend(World(files, map[], []), before, ops);
    GuardMeansSeen(files, before + ops, path, first, last);
    if RangeRefusal(w, path, first, last).None? {
      forall i | first - 1 <= i < last
        ensures var e := Sum(Lines(w.files[path])[i]);
                SeenLine(KnownIn(c, ops), path, i, e) || Missed(c, ops, path, i, e)
      {
        KnownOrMissed(files, past, ops, path, i, Sum(Lines(w.files[path])[i]));
      }
    }
  }

  lemma KnownOrMissed(files: map<string, string>, past: seq<Block>, ops: seq<Op>,
                      path: string, i: nat, e: Option<bv32>)
    requires SeenLine(Run(Converse(Start(files), past).w, ops).seen, path, i, e)
    ensures var c := Converse(Start(files), past);
            SeenLine(KnownIn(c, ops), path, i, e) || Missed(c, ops, path, i, e)
  {
    hide Run, Converse, Lines, Sum, KnownIn;
    var c := Converse(Start(files), past);
    var seen, known := Run(c.w, ops).seen, KnownIn(c, ops);
    KnownFollows(files, past, ops);
    var k :| 0 <= k < |seen| && seen[k].path == path && Tells(seen[k], i, e);
    assert PartOf(known[k], seen[k]);
  }

  /** When every earlier result was delivered whole and no call of this stanza has displayed
      anything of the path, the agent has missed nothing about it. */
  lemma {:induction false} NothingMissed(files: map<string, string>, past: seq<Block>, ops: seq<Op>,
                                         path: string, i: nat, e: Option<bv32>)
    requires (forall k :: 0 <= k < |past| ==> past[k].delivery == Whole) && Quiet(ops, path)
    ensures !Missed(Converse(Start(files), past), ops, path, i, e)
  {
    hide Run, Converse, Lines, Sum, Cut, Quiet, Tells;
    var c := Converse(Start(files), past);
    ConverseFollows(Start(files), past, true);
    var told := RunTells(c.w, ops);
    var seen, known := Run(c.w, ops).seen, KnownIn(c, ops);
    forall k | 0 <= k < |seen| && k < |known| && seen[k].path == path
      ensures i in seen[k].shown ==> i in known[k].shown
    {
      if k >= |c.w.seen| { assert seen[k] == told[k - |c.w.seen|]; }
    }
  }

  /** Then the guard keeps its word. */
  lemma {:induction false} PromiseKept(files: map<string, string>, past: seq<Block>, ops: seq<Op>,
                                       path: string, first: int, last: int)
    requires (forall k :: 0 <= k < |past| ==> past[k].delivery == Whole) && Quiet(ops, path)
    ensures Kept(files, past, ops, path, first, last)
  {
    hide Run, Converse, Lines, Sum, RangeRefusal, SeenLine, Missed, KnownIn, Quiet;
    var c := Converse(Start(files), past);
    var w := Run(c.w, ops);
    PassedKnownOrMissed(files, past, ops, path, first, last);
    if RangeRefusal(w, path, first, last).None? {
      forall i | first - 1 <= i < last ensures SeenLine(KnownIn(c, ops), path, i, Sum(Lines(w.files[path])[i])) {
        NothingMissed(files, past, ops, path, i, Sum(Lines(w.files[path])[i]));
      }
    }
  }

  // ---------- lines that pass though the agent has not heard of them ----------

  /** In one stanza a read of any file and then an edit of any line it displays: the edit passes,
      and the agent has heard nothing at all. */
  lemma SameStanzaPasses(files: map<string, string>, read: Op, line: nat)
    requires read.Read? && !read.bare && read.path != [] && read.path in files && |files[read.path]| <= FILE_MAX_BYTES
    requires var (from, to) := ReadRange(|Lines(files[read.path])|, read.start, read.max, read.whole);
             from < line <= to
    ensures RangeRefusal(Run(Start(files).w, [read]), read.path, line, line).None?
    ensures forall i, e :: !SeenLine(KnownIn(Start(files), [read]), read.path, i, e)
  {
    hide Lines, Sum, ReadRange, RememberRange, RememberWhole, VerifyFrom;
    var w := Start(files).w;
    OneOp(w, read);
    ReadLinesEditable(w, read, line, line);
    var t := ReadTold(w, read);
    assert Since(w, Run(w, [read])) == [t];
    CutParts([t], 0);
  }

  lemma ReadTold(w: World, read: Op) returns (t: Told)
    requires read.Read? && !read.bare && read.path != [] && ReadFile(w, read.path).Some?
    ensures var (from, to) := ReadRange(|Lines(w.files[read.path])|, read.start, read.max, read.whole);
            t == Told(read.path, w.files[read.path], Range(from, to), {})
    ensures Apply(w, read).0.seen == w.seen + [t] && Apply(w, read).1 == Done
  {
    hide Lines, ReadRange, RememberRange, RememberWhole;
    var (from, to) := ReadRange(|Lines(w.files[read.path])|, read.start, read.max, read.whole);
    t := Told(read.path, w.files[read.path], Range(from, to), {});
  }

  lemma OneOp(w: World, op: Op)
    ensures Run(w, [op]) == Apply(w, op).0
  {
    NoOps(Apply(w, op).0);
    assert [op][1..] == [];
    hide Apply;
  }

  /** A read of any file whose result was cut, replaced or dropped: in the next stanza every line
      behind the cut passes, and the agent has not heard of it. */
  lemma UndeliveredPasses(files: map<string, string>, read: Op, n: nat, line: nat)
    requires read.Read? && !read.bare && read.path != [] && read.path in files && |files[read.path]| <= FILE_MAX_BYTES
    requires var (from, to) := ReadRange(|Lines(files[read.path])|, read.start, read.max, read.whole);
             from + n < line <= to
    ensures var c := Converse(Start(files), [Block([read], FirstLines(n))]);
            && RangeRefusal(Run(c.w, []), read.path, line, line).None?
            && forall i, e :: line - 1 <= i ==> !SeenLine(KnownIn(c, []), read.path, i, e)
  {
    hide Lines, Sum, ReadRange, RememberRange, RememberWhole, VerifyFrom;
    var w := Start(files).w;
    var s := Block([read], FirstLines(n));
    var c := Step(Start(files), s);
    assert [s][1..] == [];
    OneOp(w, read);
    NoOps(c.w);
    ReadLinesEditable(w, read, line, line);
    var (from, to) := ReadRange(|Lines(files[read.path])|, read.start, read.max, read.whole);
    RangeFront(from, to, Min(n, to - from));
  }

  lemma {:induction false} RangeFront(lo: nat, hi: nat, k: nat)
    requires lo + k <= hi
    ensures |Range(lo, hi)| == hi - lo && Range(lo, hi)[..k] == Range(lo, lo + k)
    decreases k, hi - lo
  {
    if lo < hi { RangeFront(lo + 1, hi, if k > 0 then k - 1 else 0); }
  }

  // ---------- exactly when the guard keeps its word ----------

  /** Whatever the files and the calls, given only how the earlier results were delivered and
      whether the running stanza is quiet about the path so far. */
  ghost predicate Promise(ds: seq<Delivery>, quiet: bool) {
    forall files, past, ops, path, first, last ::
      Deliveries(past) == ds && (quiet ==> Quiet(ops, path)) ==> Kept(files, past, ops, path, first, last)
  }

  /** The prompt's promise holds if and only if every earlier result was delivered whole and no
      earlier call of the stanza has displayed lines of the path. */
  lemma {:induction false} PromiseExact(ds: seq<Delivery>, quiet: bool)
    ensures Promise(ds, quiet) <==> quiet && forall k :: 0 <= k < |ds| ==> ds[k] == Whole
  {
    hide Kept, Quiet, Converse, Run;
    if quiet && forall k :: 0 <= k < |ds| ==> ds[k] == Whole {
      forall files, past: seq<Block>, ops, path, first, last | Deliveries(past) == ds && Quiet(ops, path)
        ensures Kept(files, past, ops, path, first, last)
      {
        forall k | 0 <= k < |past| ensures past[k].delivery == Whole { assert ds[k] == Deliveries(past)[k]; }
        PromiseKept(files, past, ops, path, first, last);
      }
    } else if !quiet {
      var files := BrokenInStanza(ds);
      assert Deliveries(Idle(ds)) == ds;
    } else {
      var k :| 0 <= k < |ds| && ds[k] != Whole;
      var files, past := BrokenByCut(ds, k);
      QuietNothing("f");
    }
  }

  lemma QuietNothing(path: string)
    ensures Quiet([], path)
  {
  }

  /** Stanzas without calls. */
  function Idle(ds: seq<Delivery>): seq<Block> {
    seq(|ds|, i requires 0 <= i < |ds| => Block([], ds[i]))
  }

  lemma {:induction false} IdleChangesNothing(c: Talk, ds: seq<Delivery>)
    ensures Converse(c, Idle(ds)) == c
    decreases |ds|
  {
    if ds != [] {
      NoOps(c.w);
      assert Step(c, Idle(ds)[0]) == c;
      assert Idle(ds)[1..] == Idle(ds[1..]);
      IdleChangesNothing(c, ds[1..]);
    }
  }

  const READ_F := Read("f", 1, 0, true, false)

  lemma {:induction false} BrokenInStanza(ds: seq<Delivery>) returns (files: map<string, string>)
    ensures !Kept(files, Idle(ds), [READ_F], "f", 1, 1)
  {
    hide Run, Lines, Sum, RangeRefusal, KnownIn, SeenLine;
    files := map["f" := "a\n"];
    OneLine("a\n");
    IdleChangesNothing(Start(files), ds);
    SameStanzaPasses(files, READ_F, 1);
    NotKept(files, Idle(ds), [READ_F]);
  }

  /** Line 1 of "f" passes and the agent does not know it. */
  lemma NotKept(files: map<string, string>, past: seq<Block>, ops: seq<Op>)
    requires RangeRefusal(Run(Converse(Start(files), past).w, ops), "f", 1, 1).None?
    requires forall e :: !SeenLine(KnownIn(Converse(Start(files), past), ops), "f", 0, e)
    ensures !Kept(files, past, ops, "f", 1, 1)
  {
    hide Run, Converse, Lines, Sum, RangeRefusal, KnownIn, SeenLine;
    var c := Converse(Start(files), past);
    var w := Run(c.w, ops);
    if "f" in w.files && 1 <= |Lines(w.files["f"])| {
      assert !SeenLine(KnownIn(c, ops), "f", 0, Sum(Lines(w.files["f"])[0]));
    }
  }

  /** A result cut behind `n` lines: the stanza reads another file's only line so often, and
      then a line that the cut takes away. */
  lemma {:induction false} BrokenByCut(ds: seq<Delivery>, k: nat)
    returns (files: map<string, string>, past: seq<Block>)
    requires k < |ds| && ds[k].FirstLines?
    ensures Deliveries(past) == ds && !Kept(files, past, [], "f", 1, 1)
  {
    hide Run, Lines, Sum, RangeRefusal, KnownIn, SeenLine, Step;
    files := map["f" := "a\n", "g" := "a\n"];
    var s := Block(Others(ds[k].n) + [READ_F], ds[k]);
    past := Idle(ds[..k]) + [s] + Idle(ds[k + 1..]);
    IdleChangesNothing(Start(files), ds[..k]);
    ConverseAppend(Start(files), Idle(ds[..k]) + [s], Idle(ds[k + 1..]));
    ConverseAppend(Start(files), Idle(ds[..k]), [s]);
    OneBlock(Start(files), s);
    IdleChangesNothing(Step(Start(files), s), ds[k + 1..]);
    CutTakesLine(files, ds[k].n);
    NotKept(files, past, []);
  }

  lemma {:induction false} ConverseAppend(c: Talk, a: seq<Block>, b: seq<Block>)
    ensures Converse(c, a + b) == Converse(Converse(c, a), b)
    decreases |a|
  {
    hide Step;
    if a == [] {
      assert a + b == b;
    } else {
      assert (a + b)[1..] == a[1..] + b;
      ConverseAppend(Step(c, a[0]), a[1..], b);
    }
  }

  lemma OneBlock(c: Talk, s: Block)
    ensures Converse(c, [s]) == Step(c, s)
  {
    assert [s][1..] == [];
  }

  function Others(n: nat): seq<Op> {
    seq(n, _ => Read("g", 1, 0, true, false))
  }

  function Copies(n: nat): seq<Told> {
    seq(n, _ => Told("g", "a\n", [0], {}))
  }

  lemma {:induction false} OthersTell(w: World, n: nat)
    requires "g" in w.files && w.files["g"] == "a\n"
    ensures Run(w, Others(n)).files == w.files && Run(w, Others(n)).seen == w.seen + Copies(n)
    decreases n
  {
    hide Lines, RememberWhole, RememberRange;
    if n > 0 {
      OneLine("a\n");
      var t := ReadTold(w, Others(n)[0]);
      assert Range(0, 1) == [0];
      assert Others(n)[1..] == Others(n - 1);
      assert [t] + Copies(n - 1) == Copies(n);
      OthersTell(Apply(w, Others(n)[0]).0, n - 1);
      assert w.seen + [t] + Copies(n - 1) == w.seen + ([t] + Copies(n - 1));
    }
  }

  lemma {:induction false} CutCopies(n: nat, t: Told)
    ensures Cut(Copies(n) + [t], n) == Copies(n) + [t.(shown := [])]
    decreases n
  {
    var told := Copies(n) + [t];
    if n > 0 {
      assert told[1..] == Copies(n - 1) + [t];
      assert told[0].shown[..1] == told[0].shown;
      CutCopies(n - 1, t);
    }
  }

  lemma {:induction false} CutTakesLine(files: map<string, string>, n: nat)
    requires files == map["f" := "a\n", "g" := "a\n"]
    ensures var c := Step(Start(files), Block(Others(n) + [READ_F], FirstLines(n)));
            && RangeRefusal(Run(c.w, []), "f", 1, 1).None?
            && forall i, e :: !SeenLine(KnownIn(c, []), "f", i, e)
  {
    hide Run, Lines, Sum, RememberWhole, RememberRange, VerifyFrom, Cut;
    var w := Start(files).w;
    OneLine("a\n");
    OthersTell(w, n);
    var x := Run(w, Others(n));
    RunAppend(w, Others(n), [READ_F]);
    OneOp(x, READ_F);
    var t := ReadTold(x, READ_F);
    CutCopies(n, t);
    var c := Step(Start(files), Block(Others(n) + [READ_F], FirstLines(n)));
    NoOps(c.w);
    CutParts([], 0);
    ReadLinesEditable(x, READ_F, 1, 1);
    assert Since(w, c.w) == Copies(n) + [t];
    assert Since(c.w, Run(c.w, [])) == [];
    assert c.heard == Copies(n) + [t.(shown := [])];
    assert KnownIn(c, []) == c.heard + Cut([], 0);
    assert KnownIn(c, []) == Copies(n) + [t.(shown := [])];
  }
}
