/** The read, search, write and edit tools over files and views, whole runs of them, and
    changes from outside. */
module EditTools {
  import opened Options
  import opened Text
  import opened LineSplit
  import opened FileView

  const FILE_MAX_BYTES := 16 * 1024 * 1024
  const READ_DEFAULT_LINES := 500

  datatype World = World(
    files: map<string, string>,
    views: map<string, View>,
    seen: seq<Told>)  // what the calls told, in order

  // A path and the content a call read or wrote, the lines of it (from 0) that its result
  // displays, and the lines that lie inside the text the agent supplied.  Whether a result
  // reaches the agent is a matter of module EditDelivery.
  datatype Told = Told(path: string, content: string, shown: seq<nat>, written: set<nat>)

  predicate Covers(t: Told, i: nat) {
    i in t.shown || i in t.written
  }

  // A write may fail on open, or part of the way.
  datatype Outcome = Written | OpenFailed | Short(left: string)

  datatype Op =
    | Read(path: string, start: int, max: int, whole: bool, bare: bool)
    | Search(path: string, shown: seq<nat>)
    | Write(path: string, text: string, outcome: Outcome)
    | EditRange(path: string, first: int, last: int, text: string, outcome: Outcome)
    | EditOldNew(path: string, old_: string, text: string, outcome: Outcome)
    | EditAll(path: string, text: string, outcome: Outcome)
    | Outside(path: string, content: Option<string>)

  datatype Reply = Done | Refused(why: Refusal)

  function ReadFile(w: World, path: string): Option<string> {
    if path in w.files && |w.files[path]| <= FILE_MAX_BYTES then Some(w.files[path]) else None
  }

  function ViewOf(w: World, path: string): View {
    if path in w.views then w.views[path] else []
  }

  function Noted(w: World, t: Told): World {
    w.(seen := w.seen + [t])
  }

  /** What the result of an edit displays of the new file. */
  function ShownAround(lines: seq<string>, anchorStart: int, anchorEnd: int): seq<nat> {
    if lines == [] then [] else ContextShown(|lines|, anchorStart, anchorEnd)
  }

  /** What an edit tells that put bytes `from`..`to` into a file. */
  function EditTold(path: string, out: string, from: nat, to: nat, anchorStart: int, anchorEnd: int): Told {
    Told(path, out, ShownAround(Lines(out), anchorStart, anchorEnd), LinesWithin(out, from, to))
  }

  function SetView(w: World, path: string, v: View): World {
    w.(views := w.views[path := v])
  }

  /** The lines a read shows: from, to (0-based, exclusive). */
  function ReadRange(n: nat, start: int, max: int, whole: bool): (r: (nat, nat))
    ensures r.0 <= r.1 <= n
  {
    var from := Clamp(start - 1, 0, n);
    var count := if whole then n - from else if max <= 0 then READ_DEFAULT_LINES else max;
    (from, Clamp(from + count, from, n))
  }

  /** Counted from 0: the lines from the one asked for on, as many as asked for, 500 by default, or
      all of them. */
  lemma ReadRangeExact(n: nat, start: int, max: int, whole: bool, i: nat)
    ensures var (from, to) := ReadRange(n, start, max, whole);
            from <= i < to <==>
              && i < n && start - 1 <= i
              && (whole || i < (if start >= 1 then start - 1 else 0) + (if max <= 0 then 500 else max))
  {
  }

  function DoRead(w: World, path: string, start: int, max: int, whole: bool, bare: bool): (World, Reply) {
    match ReadFile(w, path)
    case None => (w, Refused(Unreadable))
    case Some(d) =>
      if bare then (w, Done)
      else
        var lines := Lines(d);
        var (from, to) := ReadRange(|lines|, start, max, whole);
        var v := if from == 0 && to == |lines| then RememberWhole(lines)
                 else RememberRange(ViewOf(w, path), lines, from, to);
        (SetView(Noted(w, Told(path, d, Range(from, to), {})), path, v), Done)
  }

  /** Which lines a search shows is left open: any lines the file has. */
  function DoSearch(w: World, path: string, shown: seq<nat>): (World, Reply) {
    match ReadFile(w, path)
    case None => (w, Done)
    case Some(d) =>
      if shown == [] || exists k :: 0 <= k < |shown| && shown[k] >= |Lines(d)| then (w, Done)
      else
        var w1 := Noted(w, Told(path, d, shown, {}));
        (SetView(w1, path, RememberLines(ViewOf(w, path), Lines(d), shown)), Done)
  }

  function Store(w: World, t: Told): World {
    Noted(w.(files := w.files[t.path := t.content]), t)
  }

  /** What a failed write leaves behind. */
  function Failed(w: World, path: string, outcome: Outcome): (World, Reply)
    requires outcome != Written
  {
    if outcome == OpenFailed then (w, Refused(WriteFailed))
    else (w.(files := w.files[path := outcome.left]), Refused(WriteFailed))
  }

  function DoWrite(w: World, path: string, text: string, outcome: Outcome): (World, Reply) {
    if outcome != Written then Failed(w, path, outcome)
    else
      var told := Told(path, text, [], LinesWithin(text, 0, |text|));
      (SetView(Store(w, told), path, RememberWhole(Lines(text))), Done)
  }

  function DoEditAll(w: World, path: string, text: string, outcome: Outcome): (World, Reply) {
    if outcome != Written then Failed(w, path, outcome)
    else
      var lines := Lines(text);
      var anchorEnd := if |lines| > 0 then |lines| else 1;
      var w1 := Store(w, EditTold(path, text, 0, |text|, 1, anchorEnd));
      (SetView(w1, path, Context(RememberWhole(lines), lines, 1, anchorEnd)), Done)
  }

  /** Why a line/range edit is refused before anything is written. */
  function RangeRefusal(w: World, path: string, start: int, end: int): Option<Refusal> {
    if start <= 0 || end <= 0 || end < start then Some(InvalidRange)
    else match ReadFile(w, path)
      case None => Some(Unreadable)
      case Some(d) =>
        if start > |Lines(d)| || end > |Lines(d)| then Some(OutsideFile)
        else if path !in w.views then Some(NeverSeen)
        else VerifyFrom(w.views[path], Lines(d), start, end)
  }

  /** What a line/range edit tells: the text starts behind the lines in front of the range. */
  function RangeTold(path: string, d: string, start: nat, end: nat, text: string): Told
    requires 1 <= start <= end <= |Lines(d)|
  {
    var lastLine := Lines(d)[end - 1];
    var from := |Flatten(Lines(d)[..start - 1])|;
    var replaced := ReplacementLineCount(text, AddsNewline(lastLine, text));
    EditTold(path, Splice(d, start, end, text), from, from + |Replacement(lastLine, text)|,
             start, if replaced > 0 then start + replaced - 1 else start)
  }

  function DoEditRange(w: World, path: string, start: int, end: int, text: string, outcome: Outcome): (World, Reply) {
    var why := RangeRefusal(w, path, start, end);
    if why.Some? then (w, Refused(why.value))
    else FinishRange(w, w.files[path], path, start, end, text, outcome)
  }

  /** The second half of a line/range edit, behind the guard: `d` is what was read. */
  function FinishRange(w: World, d: string, path: string, start: nat, end: nat, text: string, outcome: Outcome)
    : (World, Reply)
    requires 1 <= start <= end <= |Lines(d)|
  {
    if outcome != Written then Failed(w, path, outcome)
    else
      var told := RangeTold(path, d, start, end, text);
      var replaced := ReplacementLineCount(text, AddsNewline(Lines(d)[end - 1], text));
      var v := AfterEdit(ViewOf(w, path), Lines(told.content), start, end, replaced);
      var anchorEnd := if replaced > 0 then start + replaced - 1 else start;
      (SetView(Store(w, told), path, Context(v, Lines(told.content), start, anchorEnd)), Done)
  }

  /** The offset of the old text, if it is accepted as occurring once. */
  function AcceptedAt(d: string, old_: string): Option<nat> {
    match FindSub(d, 0, old_)
    case None => None
    case Some(p) => if FindSub(d, p + |old_|, old_).Some? then None else Some(p)
  }

  function OldNewRefusal(w: World, path: string, old_: string): Option<Refusal> {
    if old_ == [] then Some(EmptyOld)
    else match ReadFile(w, path)
      case None => Some(Unreadable)
      case Some(d) =>
        if FindSub(d, 0, old_).None? then Some(NotFound)
        else if AcceptedAt(d, old_).None? then Some(NotUnique)
        else None
  }

  function DoEditOldNew(w: World, path: string, old_: string, text: string, outcome: Outcome): (World, Reply) {
    var why := OldNewRefusal(w, path, old_);
    if why.Some? then (w, Refused(why.value))
    else if outcome != Written then Failed(w, path, outcome)
    else (StoreOldNew(w, path, AcceptedAt(w.files[path], old_).value, |old_|, text), Done)
  }

  /** The accepted edit: store the file, update the view, then remember the context shown. */
  function StoreOldNew(w: World, path: string, p: nat, oldLen: nat, text: string): World
    requires path in w.files && p + oldLen <= |w.files[path]| && 0 < oldLen
  {
    var out := ReplaceAt(w.files[path], p, oldLen, text);
    var lines, newLines := Lines(w.files[path]), Lines(out);
    OldNewOrder(lines, p, oldLen);
    var start, end := LineFor(lines, p), LineFor(lines, p + oldLen - 1);
    var anchorEnd := if end + |newLines| - |lines| < start then start else end + |newLines| - |lines|;
    var w1 := Store(w, EditTold(path, out, p, p + |text|, start, anchorEnd));
    var w2 := if path !in w.views then w1
              else SetView(w1, path, AfterOldNew(w.views[path], lines, newLines, start, end));
    if newLines == [] then w2
    else SetView(w2, path, Context(ViewOf(w2, path), newLines, start, anchorEnd))
  }

  lemma OldNewOrder(lines: seq<string>, p: nat, n: nat)
    requires 0 < n
    ensures LineFor(lines, p) <= LineFor(lines, p + n - 1)
  {
    LineForMonotone(lines, p, p + n - 1);
  }

  function Apply(w: World, op: Op): (World, Reply) {
    if op.path == [] then (w, Refused(Unreadable))
    else match op
      case Read(path, start, max, whole, bare) => DoRead(w, path, start, max, whole, bare)
      case Search(path, shown) => DoSearch(w, path, shown)
      case Write(path, text, outcome) => DoWrite(w, path, text, outcome)
      case EditRange(path, first, last, text, outcome) => DoEditRange(w, path, first, last, text, outcome)
      case EditOldNew(path, old_, text, outcome) => DoEditOldNew(w, path, old_, text, outcome)
      case EditAll(path, text, outcome) => DoEditAll(w, path, text, outcome)
      case Outside(path, content) =>
        (if content.Some? then w.(files := w.files[path := content.value])
         else w.(files := map p | p in w.files && p != path :: w.files[p]), Done)
  }

  function Run(w: World, ops: seq<Op>): World
    decreases |ops|
  {
    if ops == [] then w else Run(Apply(w, ops[0]).0, ops[1..])
  }

  // ---------- refused edits ----------

  predicate IsEdit(op: Op) {
    op.EditRange? || op.EditOldNew? || op.EditAll?
  }

  /** The edit is accepted and comes to its write. */
  predicate ComesToWrite(w: World, op: Op)
    requires IsEdit(op)
  {
    op.path != [] &&
    match op
    case EditRange(path, first, last, _, _) => RangeRefusal(w, path, first, last).None?
    case EditOldNew(path, old_, _, _) => OldNewRefusal(w, path, old_).None?
    case _ => true
  }

  /** A refused edit never touches a view or the record.  It leaves everything as it was, except
      when it was accepted and its write stopped half way: then the file is what that left. */
  lemma RefusedEditChangesNothing(w: World, op: Op)
    requires IsEdit(op) && Apply(w, op).1.Refused?
    ensures var x := Apply(w, op).0;
            && x.views == w.views && x.seen == w.seen
            && (x == w <==> !(ComesToWrite(w, op) && op.outcome.Short?
                              && (op.path !in w.files || w.files[op.path] != op.outcome.left)))
            && (x != w ==> x.files == w.files[op.path := op.outcome.left])
            && (Apply(w, op).1.why == WriteFailed <==> ComesToWrite(w, op) && op.outcome != Written)
  {
    hide Lines, FindSub, Splice, VerifyFrom, StoreOldNew;
    if op.EditRange? { NoWriteFailed(w, op.path, op.first, op.last); }
    assert op.path in w.files && op.outcome.Short? && w.files[op.path] == op.outcome.left ==>
      w.files[op.path := op.outcome.left] == w.files;
  }

  lemma NoWriteFailed(w: World, path: string, start: int, end: int)
    ensures RangeRefusal(w, path, start, end) != Some(WriteFailed)
  {
    hide Lines;
    if RangeRefusal(w, path, start, end).Some? && start > 0 && end >= start && path in w.views
       && ReadFile(w, path).Some? && end <= |Lines(w.files[path])| {
      GuardReasons(w.views[path], Lines(w.files[path]), start, end);
    }
  }

  lemma {:induction false} GuardReasons(v: View, lines: seq<string>, start: nat, end: nat)
    requires 1 <= start && end <= |lines|
    ensures var r := VerifyFrom(v, lines, start, end); r.None? || r.value.NotShown? || r.value.Changed?
    decreases end + 1 - start
  {
    if start <= end { GuardReasons(v, lines, start + 1, end); }
  }

  /** Any accepted edit of a nonempty file can destroy it: reported as failed, it leaves nothing. */
  lemma ShortWriteDestroys(w: World, op: Op)
    requires IsEdit(op) && ComesToWrite(w, op) && op.outcome == Short("")
    requires op.path in w.files && w.files[op.path] != []
    ensures Apply(w, op).1 == Refused(WriteFailed) && Apply(w, op).0 != w
    ensures Apply(w, op).0.files == w.files[op.path := ""] && Apply(w, op).0.views == w.views
  {
    hide Lines, FindSub, VerifyFrom;
    assert w.files[op.path := ""][op.path] == "";
  }

  // ---------- provenance, in every run ----------

  /** `e` is the checksum of line `i` in what one call told: the call put that line into its
      result, or it lies inside the text the agent supplied. */
  ghost predicate Tells(t: Told, i: nat, e: Option<bv32>) {
    Covers(t, i) && i < |Lines(t.content)| && e == Sum(Lines(t.content)[i])
  }

  ghost predicate SeenLine(hist: seq<Told>, path: string, i: nat, e: Option<bv32>) {
    exists k :: 0 <= k < |hist| && hist[k].path == path && Tells(hist[k], i, e)
  }

  ghost predicate ViewSeen(v: View, hist: seq<Told>, path: string) {
    forall i :: 0 <= i < |v| && v[i].Some? ==> SeenLine(hist, path, i, v[i])
  }

  ghost predicate Provenance(w: World) {
    forall p :: p in w.views ==> ViewSeen(w.views[p], w.seen, p)
  }

  /** Every known entry of `v` comes from `u`, under the same line number, or was told. */
  ghost predicate FromOr(v: View, u: View, t: Told) {
    forall i :: 0 <= i < |v| && v[i].Some? ==> (i < |u| && v[i] == u[i]) || Tells(t, i, v[i])
  }

  lemma SeenAppend(hist: seq<Told>, t: Told, v: View, u: View)
    requires ViewSeen(u, hist, t.path) && FromOr(v, u, t)
    ensures ViewSeen(v, hist + [t], t.path)
  {
    hide Tells;
    var h := hist + [t];
    forall i | 0 <= i < |v| && v[i].Some? ensures SeenLine(h, t.path, i, v[i]) {
      if i < |u| && v[i] == u[i] {
        SeenMore(hist, t, t.path, i, u[i]);
      } else {
        assert h[|hist|] == t;
      }
    }
  }

  lemma SeenMore(hist: seq<Told>, t: Told, path: string, i: nat, e: Option<bv32>)
    requires SeenLine(hist, path, i, e)
    ensures SeenLine(hist + [t], path, i, e)
  {
    hide Tells;
    var k :| 0 <= k < |hist| && hist[k].path == path && Tells(hist[k], i, e);
    assert (hist + [t])[k] == hist[k];
  }

  lemma {:induction false} RememberLinesFrom(v: View, t: Told, shown: seq<nat>)
    requires forall k :: 0 <= k < |shown| ==> shown[k] < |Lines(t.content)| && shown[k] in t.shown
    ensures FromOr(RememberLines(v, Lines(t.content), shown), v, t)
    decreases |shown|
  {
    hide Sum, Lines;
    if shown != [] { RememberLinesFrom(v, t, shown[..|shown| - 1]); }
  }

  ghost predicate CoversRange(t: Told, from: int, to: int) {
    forall i: nat :: from <= i < to && i < |Lines(t.content)| ==> Covers(t, i)
  }

  lemma RememberRangeFrom(v: View, u: View, t: Told, from: nat, to: nat)
    requires to <= |Lines(t.content)| && FromOr(v, u, t) && CoversRange(t, from, to)
    ensures FromOr(RememberRange(v, Lines(t.content), from, to), u, t)
  {
    hide Sum, Lines, Covers;
  }

  lemma WholeFrom(u: View, t: Told)
    requires CoversRange(t, 0, |Lines(t.content)|)
    ensures FromOr(RememberWhole(Lines(t.content)), u, t)
  {
    hide Sum, Lines, Covers;
  }

  /** The lines remembered around an edit are covered. */
  ghost predicate CoversContext(t: Told, anchorStart: int, anchorEnd: int) {
    var n := |Lines(t.content)|;
    n > 0 ==> CoversRange(t, ContextRange(n, anchorStart, anchorEnd).0, ContextRange(n, anchorStart, anchorEnd).1)
  }

  lemma ContextFrom(v: View, u: View, t: Told, anchorStart: int, anchorEnd: int)
    requires FromOr(v, u, t) && CoversContext(t, anchorStart, anchorEnd)
    ensures FromOr(Context(v, Lines(t.content), anchorStart, anchorEnd), u, t)
  {
    hide FromOr, CoversRange, RememberRange, ContextRange, Lines;
    var n := |Lines(t.content)|;
    if n > 0 {
      var (from, to) := ContextRange(n, anchorStart, anchorEnd);
      RememberRangeFrom(v, u, t, from, to);
    }
  }

  /** Of the context only the middle of a long edit is not displayed, and that middle was
      written; so all of the context is covered, and every line between the anchors too. */
  lemma ContextCovered(t: Told, anchorStart: nat, anchorEnd: int)
    requires 1 <= anchorStart && t.shown == ShownAround(Lines(t.content), anchorStart, anchorEnd)
    requires forall i: nat :: anchorStart + 17 <= i <= anchorEnd - 19 && i < |Lines(t.content)| ==> i in t.written
    ensures CoversContext(t, anchorStart, anchorEnd) && CoversRange(t, anchorStart - 1, anchorEnd)
  {
    hide Lines, ContextShown;
    var n := |Lines(t.content)|;
    if n > 0 {
      ContextDisplayed(n, anchorStart, anchorEnd);
      var (a, b) := Anchors(n, anchorStart, anchorEnd);
      var (from, to) := ContextRange(n, anchorStart, anchorEnd);
      forall i: nat | from <= i < to ensures Covers(t, i) {
        if i !in t.shown { assert a == anchorStart && b <= anchorEnd; }
      }
      forall i: nat | anchorStart - 1 <= i < anchorEnd && i < n ensures Covers(t, i) {
        assert from <= i < to;
      }
    }
  }

  /** The middle of a long replacement lies inside the replacement. */
  lemma {:induction false} RangeCovers(path: string, d: string, start: nat, end: nat, text: string)
    requires 1 <= start <= end <= |Lines(d)|
    ensures var t := RangeTold(path, d, start, end, text);
            var replaced := ReplacementLineCount(text, AddsNewline(Lines(d)[end - 1], text));
            && CoversContext(t, start, if replaced > 0 then start + replaced - 1 else start)
            && CoversRange(t, start - 1, start - 1 + replaced)
  {
    hide Lines, Flatten, Body, ContextShown, LinesWithin, CoversRange, CoversContext;
    var a, lastLine := Flatten(Lines(d)[..start - 1]), Lines(d)[end - 1];
    var r, b := Replacement(lastLine, text), Flatten(Lines(d)[end..]);
    var replaced := ReplacementLineCount(text, AddsNewline(lastLine, text));
    var anchorEnd := if replaced > 0 then start + replaced - 1 else start;
    var t := RangeTold(path, d, start, end, text);
    PrefixCount(d, start - 1);
    LinesAdd(a, r);
    LinesGrow(text, "\n");
    forall i: nat | start + 17 <= i <= anchorEnd - 19 && i < |Lines(t.content)| ensures i in t.written {
      CountedWithin(a, r, b, i);
    }
    ContextCovered(t, start, anchorEnd);
    NoLines(t, start - 1, replaced);
  }

  lemma NoLines(t: Told, from: nat, count: nat)
    requires count > 0 ==> CoversRange(t, from, from + count)
    ensures CoversRange(t, from, from + count)
  {
    hide Lines, Covers;
  }

  /** So does the middle of a long old/new replacement: the first and the last touched line are
      among those displayed. */
  lemma {:induction false} OldNewCovers(path: string, d: string, p: nat, oldLen: nat, text: string)
    requires 0 < oldLen && p + oldLen <= |d|
    ensures var out := ReplaceAt(d, p, oldLen, text);
            var start, end := LineFor(Lines(d), p), LineFor(Lines(d), p + oldLen - 1);
            var last := end + |Lines(out)| - |Lines(d)|;
            var anchorEnd := if last < start then start else last;
            CoversContext(EditTold(path, out, p, p + |text|, start, anchorEnd), start, anchorEnd)
  {
    hide Lines, Flatten, Body, ContextShown, LinesWithin, CoversContext, LineFor;
    var lines := Lines(d);
    var start, end := LineFor(lines, p), LineFor(lines, p + oldLen - 1);
    var y, b := d[..p] + text, d[p + oldLen..];
    var out := ReplaceAt(d, p, oldLen, text);
    assert out == y + b;
    var last := end + |Lines(out)| - |lines|;
    var anchorEnd := if last < start then start else last;
    var t := EditTold(path, out, p, p + |text|, start, anchorEnd);
    CountBefore(d, p);
    CountBehind(d, p + oldLen);
    LinesAdd(y, b);
    forall i: nat | start + 17 <= i <= anchorEnd - 19 && i < |Lines(t.content)| ensures i in t.written {
      CountedWithin(d[..p], text, b, i);
    }
    ContextCovered(t, start, anchorEnd);
  }

  /** How many lines there are in front of a byte, and behind it, next to its line number. */
  lemma {:induction false} CountBefore(d: string, p: nat)
    requires p < |d|
    ensures LineFor(Lines(d), p) - 1 <= |Lines(d[..p])| <= LineFor(Lines(d), p)
  {
    hide Lines, Flatten, LineFor;
    var lines := Lines(d);
    LinesTile(d);
    LineForBounds(lines, p);
    var n := LineFor(lines, p);
    PrefixCount(d, n - 1);
    PrefixCount(d, n);
    TiledPrefix(d, n - 1);
    TiledPrefix(d, n);
    var front, up := Flatten(lines[..n - 1]), Flatten(lines[..n]);
    assert d[..p] == front + d[|front|..p];
    LinesGrow(front, d[|front|..p]);
    assert up == d[..p] + up[p..];
    LinesGrow(d[..p], up[p..]);
  }

  lemma {:induction false} CountBehind(d: string, q: nat)
    requires 0 < q <= |d|
    ensures |Lines(d[q..])| <= |Lines(d)| - LineFor(Lines(d), q - 1) + 2
  {
    hide Lines, LineFor;
    CountBefore(d, q - 1);
    assert d[..q] == d[..q - 1] + d[q - 1..q];
    LinesGrow(d[..q - 1], d[q - 1..q]);
    assert d == d[..q] + d[q..];
    LinesAdd(d[..q], d[q..]);
  }

  /** One path's view and record move on together; all others stay. */
  ghost predicate Moves(w: World, x: World, t: Told) {
    && x.seen == Noted(w, t).seen
    && t.path in x.views && x.views == w.views[t.path := x.views[t.path]]
    && FromOr(x.views[t.path], ViewOf(w, t.path), t)
  }

  lemma MovesKeepProvenance(w: World, x: World, t: Told)
    requires Provenance(w) && Moves(w, x, t)
    ensures Provenance(x)
  {
    hide Lines, FromOr, SeenLine;
    NotingKeepsProvenance(w, t);
    SeenAppend(w.seen, t, x.views[t.path], ViewOf(w, t.path));
  }

  lemma SameView(u: View, t: Told)
    ensures FromOr(u, u, t) && FromOr([], u, t)
  {
    hide Tells;
  }

  lemma ReadProvenance(w: World, path: string, start: int, max: int, whole: bool, bare: bool)
    requires Provenance(w)
    ensures Provenance(DoRead(w, path, start, max, whole, bare).0)
  {
    hide Lines, Provenance, FromOr, ReadRange, RememberRange, RememberWhole;
    var x := DoRead(w, path, start, max, whole, bare).0;
    if x != w {
      var d := w.files[path];
      var (from, to) := ReadRange(|Lines(d)|, start, max, whole);
      var t := Told(path, d, Range(from, to), {});
      SameView(ViewOf(w, path), t);
      RememberRangeFrom(ViewOf(w, path), ViewOf(w, path), t, from, to);
      if from == 0 && to == |Lines(d)| { WholeFrom(ViewOf(w, path), t); }
      MovesKeepProvenance(w, x, t);
    }
  }

  lemma SearchProvenance(w: World, path: string, shown: seq<nat>)
    requires Provenance(w)
    ensures Provenance(DoSearch(w, path, shown).0)
  {
    hide Lines, Provenance, FromOr;
    var x := DoSearch(w, path, shown).0;
    if x != w {
      var t := Told(path, w.files[path], shown, {});
      RememberLinesFrom(ViewOf(w, path), t, shown);
      MovesKeepProvenance(w, x, t);
    }
  }

  lemma FailedProvenance(w: World, path: string, outcome: Outcome)
    requires Provenance(w) && outcome != Written
    ensures Provenance(Failed(w, path, outcome).0)
  {
  }

  /** Everything in a file the agent wrote whole is its own text. */
  lemma AllWritten(text: string, t: Told)
    requires t.content == text && t.written == LinesWithin(text, 0, |text|)
    ensures CoversRange(t, 0, |Lines(text)|)
  {
    hide Lines, LinesWithin;
    forall i: nat | i < |Lines(text)| ensures Covers(t, i) { AllWithin(text, i); }
  }

  lemma WriteProvenance(w: World, path: string, text: string, outcome: Outcome)
    requires Provenance(w)
    ensures Provenance(DoWrite(w, path, text, outcome).0)
  {
    hide Lines, Provenance, Failed, FromOr, RememberWhole, LinesWithin, CoversRange;
    if outcome != Written {
      FailedProvenance(w, path, outcome);
    } else {
      var t := Told(path, text, [], LinesWithin(text, 0, |text|));
      AllWritten(text, t);
      WholeFrom(ViewOf(w, path), t);
      MovesKeepProvenance(w, DoWrite(w, path, text, outcome).0, t);
    }
  }

  lemma EditAllProvenance(w: World, path: string, text: string, outcome: Outcome)
    requires Provenance(w)
    ensures Provenance(DoEditAll(w, path, text, outcome).0)
  {
    hide Lines, Provenance, Context, Failed, FromOr, RememberWhole, LinesWithin;
    hide CoversRange, CoversContext, ShownAround;
    if outcome != Written {
      FailedProvenance(w, path, outcome);
    } else {
      var n := |Lines(text)|;
      var t := EditTold(path, text, 0, |text|, 1, if n > 0 then n else 1);
      AllWritten(text, t);
      WholeFrom(ViewOf(w, path), t);
      PartCovered(t, 1, if n > 0 then n else 1);
      ContextFrom(RememberWhole(Lines(text)), ViewOf(w, path), t, 1, if n > 0 then n else 1);
      MovesKeepProvenance(w, DoEditAll(w, path, text, outcome).0, t);
    }
  }

  lemma PartCovered(t: Told, anchorStart: int, anchorEnd: int)
    requires CoversRange(t, 0, |Lines(t.content)|)
    ensures CoversContext(t, anchorStart, anchorEnd)
  {
    hide Lines, Covers;
  }

  lemma AfterEditFrom(v: View, t: Told, start: nat, end: nat, replaced: nat)
    requires 1 <= start <= end && CoversRange(t, start - 1, start - 1 + replaced)
    ensures FromOr(AfterEdit(v, Lines(t.content), start, end, replaced), v, t)
  {
    hide Sum, Lines, Covers;
  }

  lemma AfterOldNewFrom(v: View, oldLines: seq<string>, t: Told, start: nat, end: nat)
    requires 1 <= start <= end
    ensures FromOr(AfterOldNew(v, oldLines, Lines(t.content), start, end), v, t)
  {
    hide Sum, Lines;
  }

  lemma EditRangeProvenance(w: World, path: string, start: int, end: int, text: string, outcome: Outcome)
    requires Provenance(w)
    ensures Provenance(DoEditRange(w, path, start, end, text, outcome).0)
  {
    hide Lines, Provenance, Context, Failed, AfterEdit, FromOr, VerifyFrom, ReplacementLineCount, AddsNewline, Splice;
    hide CoversRange, CoversContext, LinesWithin, ShownAround;
    var x := DoEditRange(w, path, start, end, text, outcome).0;
    if RangeRefusal(w, path, start, end).None? {
      if outcome != Written {
        FailedProvenance(w, path, outcome);
      } else {
        var d := w.files[path];
        var t := RangeTold(path, d, start, end, text);
        var replaced := ReplacementLineCount(text, AddsNewline(Lines(d)[end - 1], text));
        var anchorEnd := if replaced > 0 then start + replaced - 1 else start;
        RangeCovers(path, d, start, end, text);
        AfterEditFrom(w.views[path], t, start, end, replaced);
        ContextFrom(AfterEdit(w.views[path], Lines(t.content), start, end, replaced), w.views[path], t,
                    start, anchorEnd);
        MovesKeepProvenance(w, x, t);
      }
    }
  }

  lemma EditOldNewProvenance(w: World, path: string, old_: string, text: string, outcome: Outcome)
    requires Provenance(w)
    ensures Provenance(DoEditOldNew(w, path, old_, text, outcome).0)
  {
    hide Provenance, Failed, FindSub, StoreOldNew;
    if OldNewRefusal(w, path, old_).None? {
      if outcome != Written {
        FailedProvenance(w, path, outcome);
      } else {
        StoredProvenance(w, path, AcceptedAt(w.files[path], old_).value, |old_|, text);
      }
    }
  }

  lemma StoredProvenance(w: World, path: string, p: nat, oldLen: nat, text: string)
    requires Provenance(w) && path in w.files && p + oldLen <= |w.files[path]| && 0 < oldLen
    ensures Provenance(StoreOldNew(w, path, p, oldLen, text))
  {
    hide Lines, Provenance, Context, AfterOldNew, FromOr, LineFor, ReplaceAt, CoversContext, ShownAround, LinesWithin;
    var x := StoreOldNew(w, path, p, oldLen, text);
    var d := w.files[path];
    var out := ReplaceAt(d, p, oldLen, text);
    var lines, newLines := Lines(d), Lines(out);
    OldNewOrder(lines, p, oldLen);
    var start, end := LineFor(lines, p), LineFor(lines, p + oldLen - 1);
    var anchorEnd := if end + |newLines| - |lines| < start then start else end + |newLines| - |lines|;
    var t := EditTold(path, out, p, p + |text|, start, anchorEnd);
    OldNewCovers(path, d, p, oldLen, text);
    AfterOldNewFrom(ViewOf(w, path), lines, t, start, end);
    SameView(ViewOf(w, path), t);
    ContextFrom(AfterOldNew(ViewOf(w, path), lines, newLines, start, end), ViewOf(w, path), t, start, anchorEnd);
    ContextFrom([], ViewOf(w, path), t, start, anchorEnd);
    if path in x.views {
      MovesKeepProvenance(w, x, t);
    } else {
      NotingKeepsProvenance(w, t);
    }
  }

  lemma NotingKeepsProvenance(w: World, t: Told)
    requires Provenance(w)
    ensures Provenance(Noted(w, t)) && Provenance(Store(w, t))
  {
    hide SeenLine;
    forall p, i: nat | p in w.views && i < |w.views[p]| && w.views[p][i].Some?
      ensures SeenLine(w.seen + [t], p, i, w.views[p][i])
    {
      SeenMore(w.seen, t, p, i, w.views[p][i]);
    }
  }

  lemma StepKeepsProvenance(w: World, op: Op)
    requires Provenance(w)
    ensures Provenance(Apply(w, op).0)
  {
    hide DoRead, DoSearch, DoWrite, DoEditRange, DoEditOldNew, DoEditAll;
    match op
    case Read(path, start, max, whole, bare) => ReadProvenance(w, path, start, max, whole, bare);
    case Search(path, shown) => SearchProvenance(w, path, shown);
    case Write(path, text, outcome) => WriteProvenance(w, path, text, outcome);
    case EditRange(path, first, last, text, outcome) => EditRangeProvenance(w, path, first, last, text, outcome);
    case EditOldNew(path, old_, text, outcome) => EditOldNewProvenance(w, path, old_, text, outcome);
    case EditAll(path, text, outcome) => EditAllProvenance(w, path, text, outcome);
    case Outside(path, content) =>
  }

  lemma {:induction false} RunKeepsProvenance(w: World, ops: seq<Op>)
    requires Provenance(w)
    ensures Provenance(Run(w, ops))
    decreases |ops|
  {
    hide Provenance, Apply;
    if ops != [] {
      StepKeepsProvenance(w, ops[0]);
      RunKeepsProvenance(Apply(w, ops[0]).0, ops[1..]);
    }
  }

  /** The guard, in every run and whatever happened outside: it lets a range pass only if each of
      its lines has the checksum that this line number had in what some call put into its result or
      in text the agent supplied.  Module EditDelivery says when the agent has heard of it. */
  lemma {:induction false} GuardMeansSeen(files: map<string, string>, ops: seq<Op>, path: string, first: int, last: int)
    ensures var w := Run(World(files, map[], []), ops);
            RangeRefusal(w, path, first, last).None? ==>
              && path in w.files && 1 <= first <= last <= |Lines(w.files[path])|
              && forall i :: first - 1 <= i < last ==> SeenLine(w.seen, path, i, Sum(Lines(w.files[path])[i]))
  {
    hide Lines, Sum, VerifyFrom, SeenLine;
    var w := Run(World(files, map[], []), ops);
    RunKeepsProvenance(World(files, map[], []), ops);
    if RangeRefusal(w, path, first, last).None? {
      VerifyExact(w.views[path], Lines(w.files[path]), first, last);
      forall i | first - 1 <= i < last
        ensures SeenLine(w.seen, path, i, Sum(Lines(w.files[path])[i]))
      {
        assert Fresh(w.views[path], Lines(w.files[path]), i);
      }
    }
  }

  /** Stale edits are refused.  In any run, whatever its write's outcome, a line/range edit that
      succeeds or changes any file has passed the guard, and the file is then the splice of the
      current one, or what its failed write left. */
  lemma {:induction false} StaleEditsRefused(files: map<string, string>, ops: seq<Op>, op: Op)
    ensures var w := Run(World(files, map[], []), ops);
            op.EditRange? && (Apply(w, op).1 == Done || Apply(w, op).0.files != w.files) ==>
              && op.path in w.files && 1 <= op.first <= op.last <= |Lines(w.files[op.path])|
              && (forall i :: op.first - 1 <= i < op.last ==>
                    SeenLine(w.seen, op.path, i, Sum(Lines(w.files[op.path])[i])))
              && !op.outcome.OpenFailed?
              && Apply(w, op).0.files == w.files[op.path :=
                   if op.outcome.Short? then op.outcome.left
                   else Splice(w.files[op.path], op.first, op.last, op.text)]
  {
    hide Lines, Sum, Context, AfterEdit, VerifyFrom, Splice, SeenLine, Run, ShownAround, LinesWithin;
    var w := Run(World(files, map[], []), ops);
    if op.EditRange? { GuardMeansSeen(files, ops, op.path, op.first, op.last); }
  }

  // ---------- what a call leaves in the files ----------

  /** `d` is cut at the first place of `old_`, and behind it there is no other. */
  ghost predicate CutAtOld(d: string, pre: string, old_: string, post: string) {
    && d == pre + old_ + post
    && (forall i: nat :: i < |pre| ==> !At(d, i, old_))
    && (forall i: nat :: !At(post, i, old_))
  }

  /** An old/new edit succeeds exactly when it is asked for some text of a readable file, the file
      can be cut at the first place of that text with no other behind it, and the write succeeds.
      Then the new text stands in its place, and all else is as before. */
  lemma {:induction false} OldNewStores(w: World, op: Op)
    requires op.EditOldNew?
    ensures Apply(w, op).1 == Done <==>
              && op.path != [] && op.old_ != [] && op.outcome == Written
              && op.path in w.files && |w.files[op.path]| <= FILE_MAX_BYTES
              && exists pre, post :: CutAtOld(w.files[op.path], pre, op.old_, post)
    ensures Apply(w, op).1 == Done ==>
              forall pre, post :: CutAtOld(w.files[op.path], pre, op.old_, post) ==>
                Apply(w, op).0.files == w.files[op.path := pre + op.text + post]
    ensures forall p :: p != op.path ==>
              (p in Apply(w, op).0.views <==> p in w.views)
              && (p in w.views ==> Apply(w, op).0.views[p] == w.views[p])
  {
    hide FindSub, At, Lines, LineFor, Context, AfterOldNew, ShownAround, LinesWithin;
    if op.path in w.files && op.old_ != [] {
      var d := w.files[op.path];
      AcceptedIsCut(d, op.old_);
      forall pre, post | CutAtOld(d, pre, op.old_, post)
        ensures AcceptedAt(d, op.old_) == Some(|pre|)
        ensures ReplaceAt(d, |pre|, |op.old_|, op.text) == pre + op.text + post
      {
        CutIsAccepted(d, pre, op.old_, post);
      }
    }
  }

  /** Why an old/new edit is refused before anything is written. */
  lemma {:induction false} OldNewReason(w: World, path: string, old_: string)
    ensures OldNewRefusal(w, path, old_) == Some(EmptyOld) <==> old_ == []
    ensures OldNewRefusal(w, path, old_) == Some(Unreadable) <==> old_ != [] && ReadFile(w, path).None?
    ensures OldNewRefusal(w, path, old_) == Some(NotFound) <==>
            old_ != [] && ReadFile(w, path).Some? && forall i: nat :: !At(w.files[path], i, old_)
    ensures OldNewRefusal(w, path, old_) == Some(NotUnique) <==>
            && old_ != [] && ReadFile(w, path).Some?
            && exists i: nat, j: nat :: At(w.files[path], i, old_) && At(w.files[path], j, old_) && i + |old_| <= j
                 && forall k: nat :: k < i ==> !At(w.files[path], k, old_)
  {
    hide At, FindSub;
    if old_ != [] && ReadFile(w, path).Some? {
      var d := w.files[path];
      var first := FindSub(d, 0, old_);
      if first.Some? {
        AtInside(d, first.value, old_);
        var second := FindSub(d, first.value + |old_|, old_);
        forall i: nat, j: nat | At(d, i, old_) && At(d, j, old_) && i + |old_| <= j
                                && forall k: nat :: k < i ==> !At(d, k, old_)
          ensures second.Some?
        {
          assert i == first.value;
        }
      }
    }
  }

  lemma AcceptedIsCut(d: string, old_: string)
    requires old_ != []
    ensures AcceptedAt(d, old_).Some? ==> exists pre, post :: CutAtOld(d, pre, old_, post)
  {
    if AcceptedAt(d, old_).Some? {
      var p := AcceptedAt(d, old_).value;
      var pre, post := d[..p], d[p + |old_|..];
      assert d == pre + old_ + post;
      forall i: nat | true ensures !At(post, i, old_) {
        assert !At(d, p + |old_| + i, old_);
        AtInRest(d, p + |old_|, p + |old_| + i, old_);
      }
      assert CutAtOld(d, pre, old_, post);
    }
  }

  lemma AtInRest(d: string, q: nat, i: nat, pat: string)
    requires q <= i && q <= |d|
    ensures At(d, i, pat) <==> At(d[q..], i - q, pat)
  {
    if i + |pat| <= |d| {
      var a, b := d[i..i + |pat|], d[q..][i - q..i - q + |pat|];
      assert forall k :: 0 <= k < |pat| ==> a[k] == d[i + k] && b[k] == d[i + k];
      assert a == b;
    }
  }

  lemma CutIsAccepted(d: string, pre: string, old_: string, post: string)
    requires old_ != [] && CutAtOld(d, pre, old_, post)
    ensures |pre + old_| <= |d| && AcceptedAt(d, old_) == Some(|pre|)
    ensures d[..|pre|] == pre && d[|pre + old_|..] == post
  {
    assert d[|pre|..|pre| + |old_|] == old_;
    FindSubUnique(d, 0, old_, |pre|);
    var q := |pre| + |old_|;
    assert d[q..] == post;
    hide At;
    forall i: nat | q <= i ensures !At(d, i, old_) {
      AtInRest(d, q, i, old_);
      assert !At(post, i - q, old_);
    }
    assert FindSub(d, q, old_).None?;
  }

  /** `pre`, `mid` and `post` are the lines of `d` in front of a range, in it and behind it. */
  ghost predicate CutAtLines(d: string, first: nat, last: nat, pre: string, mid: string, post: string)
    requires 1 <= first <= last <= |Lines(d)|
  {
    && d == pre + mid + post && pre == Flatten(Lines(d)[..first - 1])
    && mid == Flatten(Lines(d)[first - 1..last]) && post == Flatten(Lines(d)[last..])
  }

  /** A line/range edit succeeds exactly when the guard passes and the write succeeds.  Then the
      text stands in place of the lines, with a newline behind it exactly when the text is not
      empty, does not end in one, and the last of the lines did end in a terminator. */
  lemma {:induction false} RangeStores(w: World, op: Op, pre: string, mid: string, post: string)
    requires op.EditRange? && op.path != []
    ensures Apply(w, op).1 == Done <==> op.outcome == Written && RangeRefusal(w, op.path, op.first, op.last).None?
    ensures Apply(w, op).1 == Done ==>
              && op.path in w.files && 1 <= op.first <= op.last <= |Lines(w.files[op.path])|
              && (CutAtLines(w.files[op.path], op.first, op.last, pre, mid, post) ==>
                    mid != [] &&
                    var newline := op.text != [] && op.text[|op.text| - 1] != '\n' && IsEol(mid[|mid| - 1]);
                    Apply(w, op).0.files
                    == w.files[op.path := pre + op.text + (if newline then "\n" else "") + post])
  {
    hide Lines, Context, VerifyFrom, ShownAround, LinesWithin, AfterEdit, Flatten, Body;
    if Apply(w, op).1 == Done && CutAtLines(w.files[op.path], op.first, op.last, pre, mid, post) {
      var d := w.files[op.path];
      LastTerminated(d, op.first, op.last, mid);
      assert Splice(d, op.first, op.last, op.text) == pre + Replacement(Lines(d)[op.last - 1], op.text) + post;
      assert pre + (op.text + "\n") + post == pre + op.text + "\n" + post;
      assert pre + op.text + "" + post == pre + op.text + post;
    }
    NoWriteFailed(w, op.path, op.first, op.last);
  }

  lemma LastTerminated(d: string, first: nat, last: nat, mid: string)
    requires 1 <= first <= last <= |Lines(d)| && mid == Flatten(Lines(d)[first - 1..last])
    ensures mid != [] && (Body(Lines(d)[last - 1]) != Lines(d)[last - 1] <==> IsEol(mid[|mid| - 1]))
  {
    hide Lines, Flatten;
    LinesTile(d);
    var (front, line) := (Lines(d)[first - 1..last - 1], Lines(d)[last - 1]);
    assert Lines(d)[first - 1..last] == front + [line];
    FlattenLast(front, line);
    LinesExact(d, Lines(d));
    assert IsLine(line, Flatten(Lines(d)[last..])) by { assert AreLines(Lines(d)); }
    LineEnds(line, Flatten(Lines(d)[last..]));
  }

  lemma FlattenLast(front: seq<string>, line: string)
    ensures Flatten(front + [line]) == Flatten(front) + line
  {
    FlattenAppend(front, [line]);
    assert Flatten([line]) == line + Flatten<char>([]);
  }

  /** A line's last byte tells whether it has a terminator. */
  lemma LineEnds(line: string, next: string)
    requires IsLine(line, next)
    ensures line != [] && (Body(line) != line <==> IsEol(line[|line| - 1]))
  {
    var body, eol :| line == body + eol && line != []
      && (forall c :: c in body ==> !IsEol(c))
      && (|| eol == "\n" || eol == "\r\n"
          || (eol == "\r" && (next == [] || next[0] != '\n'))
          || (eol == "" && next == []));
    assert forall k :: 0 <= k < |body| ==> line[k] == body[k];
    if eol == "" {
      BodyLenUnique(line, |line|);
      assert line[|line| - 1] == body[|body| - 1];
    } else {
      assert line[|line| - 1] == eol[|eol| - 1] && line[|body|] == eol[0];
      BodyLenUnique(line, |body|);
    }
  }

  /** A write of a whole file, by either tool, leaves exactly the text if it succeeds. */
  lemma WholeWriteResult(w: World, op: Op)
    requires (op.Write? || op.EditAll?) && op.path != []
    ensures Apply(w, op).1 == if op.outcome == Written then Done else Refused(WriteFailed)
    ensures Apply(w, op).0.files ==
              match op.outcome
              case Written => w.files[op.path := op.text]
              case OpenFailed => w.files
              case Short(left) => w.files[op.path := left]
    ensures forall p :: p != op.path ==>
              (p in Apply(w, op).0.views <==> p in w.views)
              && (p in w.views ==> Apply(w, op).0.views[p] == w.views[p])
  {
    hide Lines, Context, ShownAround, LinesWithin, RememberWhole;
  }

  /** Reading and searching change no file, and no view but that of their path. */
  lemma ShowingChangesNoFile(w: World, op: Op)
    requires op.Read? || op.Search?
    ensures Apply(w, op).0.files == w.files
    ensures forall p :: p != op.path ==>
              (p in Apply(w, op).0.views <==> p in w.views)
              && (p in w.views ==> Apply(w, op).0.views[p] == w.views[p])
  {
    hide Lines, ReadRange, RememberRange, RememberWhole, RememberLines;
  }

  // ---------- an edit in two halves ----------

  ghost predicate OutsideOnly(ops: seq<Op>) {
    forall i :: 0 <= i < |ops| ==> ops[i].Outside?
  }

  lemma {:induction false} OutsideKeeps(w: World, ops: seq<Op>)
    requires OutsideOnly(ops)
    ensures Run(w, ops) == w.(files := Run(w, ops).files)
    decreases |ops|
  {
    if ops != [] { OutsideKeeps(Apply(w, ops[0]).0, ops[1..]); }
  }

  /** The program reads and checks the file first and writes it later.  In any run, with any
      changes from outside in between, what passed the guard is the content `d` that was read, and
      the edit stores the splice of `d`: what happened to the path in between is overwritten, the
      other files keep what happened to them, and view and record are those of an edit that met no
      change.  When the path's content stayed `d`, all is as if the call had run at its write. */
  lemma {:induction false} SplitEdit(files: map<string, string>, ops: seq<Op>, op: Op, between: seq<Op>)
    requires op.EditRange? && op.path != [] && OutsideOnly(between)
    requires RangeRefusal(Run(World(files, map[], []), ops), op.path, op.first, op.last).None?
    ensures var w := Run(World(files, map[], []), ops);
            && op.path in w.files && 1 <= op.first <= op.last <= |Lines(w.files[op.path])|
            && var (d, w1) := (w.files[op.path], Run(w, between));
            && var (x, reply) := FinishRange(w1, d, op.path, op.first, op.last, op.text, op.outcome);
            && (forall i :: op.first - 1 <= i < op.last ==> SeenLine(w.seen, op.path, i, Sum(Lines(d)[i])))
            && (op.outcome == Written ==>
                  x.files == w1.files[op.path := Splice(d, op.first, op.last, op.text)])
            && x.views == Apply(w, op).0.views && x.seen == Apply(w, op).0.seen && reply == Apply(w, op).1
            && (op.path in w1.files && w1.files[op.path] == d ==> (x, reply) == Apply(w1, op))
  {
    hide Lines, Sum, Context, AfterEdit, VerifyFrom, Splice, SeenLine, Run, ShownAround, LinesWithin;
    var w := Run(World(files, map[], []), ops);
    GuardMeansSeen(files, ops, op.path, op.first, op.last);
    OutsideKeeps(w, between);
  }

  /** A concrete loss: after the guard passed on "a\n" the file becomes two other lines, and the
      edit leaves "x\n"; had it run after the change, it would not have. */
  lemma {:induction false} OverwrittenUnseen() returns (w: World, w1: World)
    ensures "f" in w.files && w.files["f"] == "a\n" && RangeRefusal(w, "f", 1, 1).None?
    ensures w1 == Run(w, [Outside("f", Some("b\nc\n"))]) && "f" in w1.files && w1.files["f"] == "b\nc\n"
    ensures |Lines("a\n")| == 1
    ensures FinishRange(w1, "a\n", "f", 1, 1, "x", Written).0.files == w1.files["f" := "x\n"]
    ensures Apply(w1, EditRange("f", 1, 1, "x", Written)).0.files != w1.files["f" := "x\n"]
  {
    hide Lines, VerifyFrom, RememberWhole, RememberRange, Context, AfterEdit, ShownAround, LinesWithin, Sum;
    var empty := World(map["f" := "a\n"], map[], []);
    var read := Read("f", 1, 0, true, false);
    w := Apply(empty, read).0;
    w1 := w.(files := w.files["f" := "b\nc\n"]);
    assert [Outside("f", Some("b\nc\n"))][1..] == [];
    OneLine("a\n");
    OneLine("b\n");
    ReadLinesEditable(empty, read, 1, 1);
    assert "b\nc\n" == "b\n" + "c\n";
    OneLine("c\n");
    LinesAppend("b\n", "c\n");
    assert Lines("b\nc\n") == ["b\n", "c\n"];
    ReplaceFirst("a\n", [], "x");
    ReplaceFirst("b\nc\n", ["c\n"], "x");
    assert Splice("a\n", 1, 1, "x") == "x\n";
    assert Apply(w1, EditRange("f", 1, 1, "x", Written)).0.files["f"] != "x\n";
    assert w1.files["f" := "x\n"]["f"] == "x\n";
  }

  lemma ReplaceFirst(d: string, rest: seq<string>, text: string)
    requires Lines(d) != [] && Lines(d)[1..] == rest && Body(Lines(d)[0]) != Lines(d)[0]
    requires text != [] && text[|text| - 1] != '\n'
    ensures Splice(d, 1, 1, text) == text + "\n" + Flatten(rest)
    ensures Flatten<char>([]) == []
  {
    hide Lines, Body;
    assert Lines(d)[..0] == [];
  }

  // ---------- lines that pass without having been displayed ----------

  /** Right after a write of the whole file every range passes the guard, and the call displayed
      none of it: what the agent wrote counts as seen. */
  lemma WrittenLinesPass(w: World, op: Op, first: nat, last: nat)
    requires op.Write? && op.path != [] && op.outcome == Written && |op.text| <= FILE_MAX_BYTES
    requires 1 <= first <= last <= |Lines(op.text)|
    ensures var x := Apply(w, op).0;
            && RangeRefusal(x, op.path, first, last).None?
            && x.seen == w.seen + [Told(op.path, op.text, [], LinesWithin(op.text, 0, |op.text|))]
  {
    hide Lines, Sum, RememberWhole, RememberRange, VerifyFrom, LinesWithin;
    WholeIsRange(Lines(op.text));
    RememberedFresh([], Lines(op.text), 0, |Lines(op.text)|, first, last);
  }

  /** What an edit has told is the last entry of the record. */
  lemma LastTold(w: World, op: Op)
    requires op.EditRange? && op.outcome == Written && Apply(w, op).1 == Done
    ensures op.path in w.files && 1 <= op.first <= op.last <= |Lines(w.files[op.path])|
    ensures var x := Apply(w, op).0;
            && x.seen == w.seen + [RangeTold(op.path, w.files[op.path], op.first, op.last, op.text)]
            && x.files == w.files[op.path := RangeTold(op.path, w.files[op.path], op.first, op.last, op.text).content]
  {
    hide Lines, Context, AfterEdit, VerifyFrom, Splice, ReplacementLineCount, AddsNewline, LinesWithin, ContextShown;
  }

  /** An omitted line of a long line/range edit passes the guard at once, though the edit's
      result does not display it; it lies inside the replacement. */
  lemma {:induction false} OmittedLinesPass(w: World, op: Op, line: nat)
    requires op.EditRange? && op.outcome == Written && Apply(w, op).1 == Done
    requires op.path in w.files && 1 <= op.first <= op.last <= |Lines(w.files[op.path])|
    requires var d := w.files[op.path];
             var out := Splice(d, op.first, op.last, op.text);
             var anchorEnd := op.first - 1 + ReplacementLineCount(op.text, AddsNewline(Lines(d)[op.last - 1], op.text));
             op.first + 18 <= line <= anchorEnd - 18 && anchorEnd <= |Lines(out)| && |out| <= FILE_MAX_BYTES
    ensures var x := Apply(w, op).0;
            && RangeRefusal(x, op.path, line, line).None?
            && var t := RangeTold(op.path, w.files[op.path], op.first, op.last, op.text);
            && x.seen == w.seen + [t] && line - 1 !in t.shown && line - 1 in t.written
  {
    hide Lines, Splice, ReplacementLineCount, AddsNewline, LinesWithin, ContextShown, ContextRange, Apply, RangeRefusal;
    LastTold(w, op);
    OmittedTold(op.path, w.files[op.path], op.first, op.last, op.text, line);
    ContextLinesEditable(w, op, line, line);
  }

  lemma {:induction false} OmittedTold(path: string, d: string, first: nat, last: nat, text: string, line: nat)
    requires 1 <= first <= last <= |Lines(d)|
    requires var anchorEnd := first - 1 + ReplacementLineCount(text, AddsNewline(Lines(d)[last - 1], text));
             first + 18 <= line <= anchorEnd - 18 && anchorEnd <= |Lines(Splice(d, first, last, text))|
    ensures var t := RangeTold(path, d, first, last, text);
            && line - 1 !in t.shown && line - 1 in t.written
            && var (from, to) := ContextRange(|Lines(t.content)|, first,
                 first - 1 + ReplacementLineCount(text, AddsNewline(Lines(d)[last - 1], text)));
            from < line <= to
  {
    hide Lines, Splice, ReplacementLineCount, AddsNewline, LinesWithin, ContextShown, CoversContext;
    var n := |Lines(Splice(d, first, last, text))|;
    ContextDisplayed(n, first, first - 1 + ReplacementLineCount(text, AddsNewline(Lines(d)[last - 1], text)));
    RangeCovers(path, d, first, last, text);
    assert CoversRange(RangeTold(path, d, first, last, text), first - 1,
                       first - 1 + ReplacementLineCount(text, AddsNewline(Lines(d)[last - 1], text)));
    assert Covers(RangeTold(path, d, first, last, text), line - 1);
  }

  // ---------- what may be edited at once ----------

  lemma RememberedFresh(v: View, lines: seq<string>, from: nat, to: nat, first: nat, last: nat)
    requires from < first <= last <= to <= |lines|
    ensures VerifyFrom(RememberRange(v, lines, from, to), lines, first, last).None?
  {
    hide Sum;
    VerifyExact(RememberRange(v, lines, from, to), lines, first, last);
  }

  /** Every line a read has shown may be edited right after it. */
  lemma ReadLinesEditable(w: World, op: Op, first: nat, last: nat)
    requires op.Read? && !op.bare && Apply(w, op).1 == Done && op.path in w.files
    requires var (from, to) := ReadRange(|Lines(w.files[op.path])|, op.start, op.max, op.whole);
             from < first <= last <= to
    ensures RangeRefusal(Apply(w, op).0, op.path, first, last).None?
  {
    hide Lines, Sum, ReadRange, RememberRange, VerifyFrom;
    var lines := Lines(w.files[op.path]);
    var (from, to) := ReadRange(|lines|, op.start, op.max, op.whole);
    RememberedFresh(ViewOf(w, op.path), lines, from, to, first, last);
    WholeIsRange(lines);
    RememberedFresh([], lines, 0, |lines|, first, last);
  }

  lemma WholeIsRange(lines: seq<string>)
    ensures RememberWhole(lines) == RememberRange([], lines, 0, |lines|)
  {
    hide Sum;
  }

  /** Lines `first`..`last` lie in the context that a written line/range edit has shown. */
  ghost predicate InContext(w: World, op: Op, first: nat, last: nat) {
    && op.EditRange? && op.outcome == Written && Apply(w, op).1 == Done
    && op.path in w.files && 1 <= op.last <= |Lines(w.files[op.path])|
    && var x := Apply(w, op).0;
    && op.path in x.files && |x.files[op.path]| <= FILE_MAX_BYTES && Lines(x.files[op.path]) != []
    && var replaced := ReplacementLineCount(op.text, AddsNewline(Lines(w.files[op.path])[op.last - 1], op.text));
    && var anchorEnd := if replaced > 0 then op.first + replaced - 1 else op.first;
    && var (from, to) := ContextRange(|Lines(x.files[op.path])|, op.first, anchorEnd);
    from < first <= last <= to
  }

  /** So may every line in the context of an edit, as long as the file stays readable. */
  lemma ContextLinesEditable(w: World, op: Op, first: nat, last: nat)
    ensures InContext(w, op, first, last) ==> RangeRefusal(Apply(w, op).0, op.path, first, last).None?
  {
    hide Lines, Sum, ContextRange, RememberRange, VerifyFrom, Splice, AfterEdit, ReplacementLineCount, AddsNewline;
    if InContext(w, op, first, last) {
      var d := w.files[op.path];
      var out := Lines(Splice(d, op.first, op.last, op.text));
      var replaced := ReplacementLineCount(op.text, AddsNewline(Lines(d)[op.last - 1], op.text));
      var (from, to) := ContextRange(|out|, op.first, if replaced > 0 then op.first + replaced - 1 else op.first);
      RememberedFresh(AfterEdit(w.views[op.path], out, op.first, op.last, replaced), out, from, to, first, last);
    }
  }

  // ---------- what stays editable ----------

  /** The guard lets the range pass. */
  ghost predicate Editable(w: World, path: string, first: nat, last: nat) {
    RangeRefusal(w, path, first, last).None?
  }

  /** It does exactly for lines of a readable file that are all remembered as they are. */
  lemma EditableExact(w: World, path: string, first: nat, last: nat)
    ensures Editable(w, path, first, last) <==>
              && path in w.files && |w.files[path]| <= FILE_MAX_BYTES && path in w.views
              && 1 <= first <= last <= |Lines(w.files[path])|
              && forall i :: first - 1 <= i < last ==> Fresh(w.views[path], Lines(w.files[path]), i)
  {
    hide Lines, VerifyFrom, Fresh;
    if path in w.files && path in w.views && 1 <= first <= last <= |Lines(w.files[path])| {
      VerifyExact(w.views[path], Lines(w.files[path]), first, last);
    }
  }

  /** Reading and searching make no line uneditable. */
  lemma ShowingKeepsLines(w: World, op: Op, first: nat, last: nat)
    requires (op.Read? || op.Search?) && Editable(w, op.path, first, last)
    ensures Editable(Apply(w, op).0, op.path, first, last)
  {
    hide Lines, Sum, ReadRange, VerifyFrom, RangeRefusal, RememberLines;
    var x := Apply(w, op).0;
    EditableExact(w, op.path, first, last);
    EditableExact(x, op.path, first, last);
    var lines := Lines(w.files[op.path]);
    if op.Search? {
      if forall k :: 0 <= k < |op.shown| ==> op.shown[k] < |lines| {
        SearchKeepsFresh(w.views[op.path], lines, op.shown);
      }
    } else {
      var (from, to) := ReadRange(|lines|, op.start, op.max, op.whole);
      assert forall i :: 0 <= i < |lines| ==> Fresh(RememberWhole(lines), lines, i);
      assert forall i :: 0 <= i < |lines| && Fresh(w.views[op.path], lines, i) ==>
          Fresh(RememberRange(w.views[op.path], lines, from, to), lines, i);
    }
  }

  /** A shown line is fresh, and no line that was fresh before is lost. */
  lemma {:induction false} SearchKeepsFresh(v: View, lines: seq<string>, shown: seq<nat>)
    requires forall k :: 0 <= k < |shown| ==> shown[k] < |lines|
    ensures forall k :: 0 <= k < |shown| ==> Fresh(RememberLines(v, lines, shown), lines, shown[k])
    ensures forall i :: 0 <= i < |lines| && Fresh(v, lines, i) ==> Fresh(RememberLines(v, lines, shown), lines, i)
    decreases |shown|
  {
    hide Sum;
    if shown != [] { SearchKeepsFresh(v, lines, shown[..|shown| - 1]); }
  }

  /** Every line a search has shown may be edited right after it. */
  lemma SearchLinesEditable(w: World, op: Op, k: nat)
    requires op.Search? && op.path != [] && k < |op.shown|
    requires ReadFile(w, op.path).Some? && forall j :: 0 <= j < |op.shown| ==> op.shown[j] < |Lines(w.files[op.path])|
    ensures Editable(Apply(w, op).0, op.path, op.shown[k] + 1, op.shown[k] + 1)
  {
    hide Lines, Sum, VerifyFrom, RangeRefusal, RememberLines;
    SearchKeepsFresh(ViewOf(w, op.path), Lines(w.files[op.path]), op.shown);
    EditableExact(Apply(w, op).0, op.path, op.shown[k] + 1, op.shown[k] + 1);
  }

  /** Nor does a call on one path touch what may be edited on another. */
  lemma OtherPathsKept(w: World, op: Op, path: string, first: nat, last: nat)
    requires path != op.path
    ensures Editable(Apply(w, op).0, path, first, last) == Editable(w, path, first, last)
  {
    hide Lines, Sum, VerifyFrom, ReadRange, Context, AfterEdit, AfterOldNew, LineFor, AcceptedAt, Splice;
    hide ShownAround, LinesWithin, RememberLines;
  }

  /** A line/range edit leaves the lines in front of it editable, and those behind it too unless
      their numbers shifted. */
  lemma {:induction false} RangeEditKeepsLines(w: World, op: Op, first: nat, last: nat)
    requires op.EditRange? && Apply(w, op).1 == Done && op.path in w.files
    requires LfOnly(w.files[op.path]) && LfOnly(op.text) && Editable(w, op.path, first, last)
    requires |Apply(w, op).0.files[op.path]| <= FILE_MAX_BYTES
    requires last < op.first
             || (op.last < first && |Lines(Apply(w, op).0.files[op.path])| == |Lines(w.files[op.path])|)
    ensures Editable(Apply(w, op).0, op.path, first, last)
  {
    hide Lines, Sum, VerifyFrom, Splice, Context, ReplacementLineCount, AddsNewline, ShownAround, LinesWithin;
    hide LfOnly, Replacement;
    var (x, d) := (Apply(w, op).0, w.files[op.path]);
    var lines, out := Lines(d), Lines(x.files[op.path]);
    var replaced := ReplacementLineCount(op.text, AddsNewline(lines[op.last - 1], op.text));
    var v := AfterEdit(w.views[op.path], out, op.first, op.last, replaced);
    EditableExact(w, op.path, first, last);
    SpliceLines(d, op.first, op.last, op.text);
    ReplacementCount(lines[op.last - 1], op.text);
    forall i | first - 1 <= i < last ensures i < |out| && Fresh(v, out, i) {
      assert Fresh(w.views[op.path], lines, i);
      assert out[i] == lines[i];
    }
    ContextKeepsFresh(v, out, op.first, if replaced > 0 then op.first + replaced - 1 else op.first);
    EditableExact(x, op.path, first, last);
  }

  lemma ContextKeepsFresh(v: View, lines: seq<string>, a: int, b: int)
    ensures forall i :: 0 <= i < |lines| && Fresh(v, lines, i) ==> Fresh(Context(v, lines, a, b), lines, i)
  {
    hide Sum;
  }

  /** So does an old/new edit with the lines it touches. */
  lemma {:induction false} OldNewEditKeepsLines(w: World, op: Op, first: nat, last: nat)
    requires op.EditOldNew? && Apply(w, op).1 == Done && op.path in w.files
    requires LfOnly(w.files[op.path]) && LfOnly(op.text) && Editable(w, op.path, first, last)
    requires |Apply(w, op).0.files[op.path]| <= FILE_MAX_BYTES
    requires var p := AcceptedAt(w.files[op.path], op.old_).value;
             || last < LineFor(Lines(w.files[op.path]), p)
             || (LineFor(Lines(w.files[op.path]), p + |op.old_| - 1) + 1 < first
                 && |Lines(Apply(w, op).0.files[op.path])| == |Lines(w.files[op.path])|)
    ensures Editable(Apply(w, op).0, op.path, first, last)
  {
    hide Lines, Sum, VerifyFrom, LineFor, Context, ShownAround, LinesWithin, LfOnly, FindSub, ReplaceAt, Flatten;
    var (x, d) := (Apply(w, op).0, w.files[op.path]);
    var p := AcceptedAt(d, op.old_).value;
    var lines, out := Lines(d), Lines(x.files[op.path]);
    EditableExact(w, op.path, first, last);
    OldNewOrder(lines, p, |op.old_|);
    var start, end := LineFor(lines, p), LineFor(lines, p + |op.old_| - 1);
    var v := AfterOldNew(w.views[op.path], lines, out, start, end);
    LinesTile(d);
    LineForBounds(lines, p);
    LineForBounds(lines, p + |op.old_| - 1);
    FrontKept(d, p, |op.old_|, op.text, start);
    if |out| == |lines| { BackKept(d, p, |op.old_|, op.text, end); }
    forall i | first - 1 <= i < last ensures i < |out| && Fresh(v, out, i) {
      assert Fresh(w.views[op.path], lines, i);
      assert out[i] == lines[i];
    }
    var anchorEnd := if end + |out| - |lines| < start then start else end + |out| - |lines|;
    ContextKeepsFresh(v, out, start, anchorEnd);
    EditableExact(x, op.path, first, last);
  }

  /** A concrete refusal that changed a file: read "a\n", then edit its line with a write that
      stops at once. */
  lemma {:induction false} ShortWriteWitness() returns (w: World, op: Op)
    ensures op == EditRange("f", 1, 1, "b", Short("")) && "f" in w.files && w.files["f"] == "a\n"
    ensures Apply(w, op).1 == Refused(WriteFailed) && Apply(w, op).0.files == w.files["f" := ""]
  {
    hide Lines, VerifyFrom, RememberWhole, RememberRange;
    var empty := World(map["f" := "a\n"], map[], []);
    var read := Read("f", 1, 0, true, false);
    op := EditRange("f", 1, 1, "b", Short(""));
    w := Apply(empty, read).0;
    OneLine("a\n");
    ReadLinesEditable(empty, read, 1, 1);
    ShortWriteDestroys(w, op);
  }

  // ---------- agreement, in runs of the tools alone ----------

  ghost predicate WorldAgrees(w: World) {
    && (forall p :: p in w.files ==> LfOnly(w.files[p]))
    && (forall p :: p in w.views ==> p in w.files && Agrees(w.views[p], Lines(w.files[p])))
  }

  /** A tool call with LF-only text whose write, if any, did not stop half way. */
  ghost predicate CleanOp(op: Op) {
    match op
    case Read(_, _, _, _, _) => true
    case Search(_, _) => true
    case Write(_, text, outcome) => LfOnly(text) && !outcome.Short?
    case EditRange(_, _, _, text, outcome) => LfOnly(text) && !outcome.Short?
    case EditOldNew(_, _, text, outcome) => LfOnly(text) && !outcome.Short?
    case EditAll(_, text, outcome) => LfOnly(text) && !outcome.Short?
    case Outside(_, _) => false
  }

  /** One path gets a new content and a view that agrees with it. */
  lemma PathAgrees(w: World, x: World, path: string, d: string)
    requires WorldAgrees(w) && LfOnly(d)
    requires x.files == w.files[path := d]
    requires path in x.views && x.views == w.views[path := x.views[path]] && Agrees(x.views[path], Lines(d))
    ensures WorldAgrees(x)
  {
    hide Lines, Agrees, LfOnly;
  }

  lemma WholeAgrees(lines: seq<string>)
    ensures Agrees(RememberWhole(lines), lines) && Agrees([], lines)
  {
    hide Sum;
  }

  lemma ContextAgrees(v: View, lines: seq<string>, a: int, b: int)
    requires Agrees(v, lines)
    ensures Agrees(Context(v, lines, a, b), lines)
  {
    hide Agrees, RememberRange, ContextRange;
    if lines != [] {
      var (from, to) := ContextRange(|lines|, a, b);
      RangeAgrees(v, lines, from, to);
    }
  }

  lemma ViewAgrees(w: World, path: string)
    requires WorldAgrees(w) && path in w.files
    ensures LfOnly(w.files[path]) && Agrees(ViewOf(w, path), Lines(w.files[path]))
  {
    hide Lines;
    WholeAgrees(Lines(w.files[path]));
  }

  lemma ShowAgrees(w: World, op: Op)
    requires WorldAgrees(w) && (op.Read? || op.Search?)
    ensures WorldAgrees(Apply(w, op).0)
  {
    hide Lines, Agrees, WorldAgrees, Sum, ReadRange, RememberRange, RememberWhole;
    var x := Apply(w, op).0;
    if x != w {
      var d := w.files[op.path];
      ViewAgrees(w, op.path);
      WholeAgrees(Lines(d));
      if op.Read? {
        var (from, to) := ReadRange(|Lines(d)|, op.start, op.max, op.whole);
        RangeAgrees(ViewOf(w, op.path), Lines(d), from, to);
      } else {
        LinesAgree(ViewOf(w, op.path), Lines(d), op.shown);
      }
      assert w.files == w.files[op.path := d];
      PathAgrees(w, x, op.path, d);
    }
  }

  lemma WholeWriteAgrees(w: World, op: Op)
    requires WorldAgrees(w) && CleanOp(op) && (op.Write? || op.EditAll?)
    ensures WorldAgrees(Apply(w, op).0)
  {
    hide Lines, Agrees, WorldAgrees, Sum, Context, RememberWhole;
    var x := Apply(w, op).0;
    if x != w {
      var lines := Lines(op.text);
      WholeAgrees(lines);
      ContextAgrees(RememberWhole(lines), lines, 1, if |lines| > 0 then |lines| else 1);
      PathAgrees(w, x, op.path, op.text);
    }
  }

  lemma RangeEditAgrees(w: World, op: Op)
    requires WorldAgrees(w) && CleanOp(op) && op.EditRange?
    ensures WorldAgrees(Apply(w, op).0)
  {
    hide Lines, Agrees, WorldAgrees, LfOnly, Sum, Context, AfterEdit, Splice, VerifyFrom;
    hide ReplacementLineCount, AddsNewline;
    var x := Apply(w, op).0;
    if x != w {
      var d := w.files[op.path];
      var out := Splice(d, op.first, op.last, op.text);
      var replaced := ReplacementLineCount(op.text, AddsNewline(Lines(d)[op.last - 1], op.text));
      ViewAgrees(w, op.path);
      EditAgrees(w.views[op.path], d, op.first, op.last, op.text);
      SpliceLines(d, op.first, op.last, op.text);
      ContextAgrees(AfterEdit(w.views[op.path], Lines(out), op.first, op.last, replaced), Lines(out),
                    op.first, if replaced > 0 then op.first + replaced - 1 else op.first);
      PathAgrees(w, x, op.path, out);
    }
  }

  lemma OldNewEditAgrees(w: World, op: Op)
    requires WorldAgrees(w) && CleanOp(op) && op.EditOldNew?
    ensures WorldAgrees(Apply(w, op).0)
  {
    hide Lines, Agrees, WorldAgrees, LfOnly, Sum, Context, AfterOldNew, FindSub, LineFor;
    var x := Apply(w, op).0;
    if x != w {
      var d := w.files[op.path];
      var p := AcceptedAt(d, op.old_).value;
      var out := ReplaceAt(d, p, |op.old_|, op.text);
      var lines, newLines := Lines(d), Lines(out);
      ViewAgrees(w, op.path);
      OldNewAgrees(ViewOf(w, op.path), d, p, |op.old_|, op.text);
      OldNewOrder(lines, p, |op.old_|);
      ReplacedLf(d, p, |op.old_|, op.text);
      OldNewResult(w, op.path, p, |op.old_|, op.text, out, LineFor(lines, p), LineFor(lines, p + |op.old_| - 1));
      if op.path in x.views {
        PathAgrees(w, x, op.path, out);
      } else {
        NewFileAgrees(w, x, op.path, out);
      }
    }
  }

  /** The view after an old/new edit agrees, whether or not there was one before. */
  lemma OldNewResult(w: World, path: string, p: nat, oldLen: nat, text: string, out: string, start: nat, end: nat)
    requires path in w.files && p + oldLen <= |w.files[path]| && 0 < oldLen
    requires out == ReplaceAt(w.files[path], p, oldLen, text)
    requires start == LineFor(Lines(w.files[path]), p) <= end == LineFor(Lines(w.files[path]), p + oldLen - 1)
    requires Agrees(Context(AfterOldNew(ViewOf(w, path), Lines(w.files[path]), Lines(out), start, end), Lines(out),
                            start, end + |Lines(out)| - |Lines(w.files[path])|), Lines(out))
    ensures var x := StoreOldNew(w, path, p, oldLen, text);
            && x.files == w.files[path := out]
            && (path in x.views ==> x.views == w.views[path := x.views[path]] && Agrees(x.views[path], Lines(out)))
            && (path !in x.views ==> x.views == w.views)
  {
    hide Lines, Agrees, LfOnly, Sum, AfterOldNew, LineFor, RememberRange, ReplaceAt;
    var newLines := Lines(out);
    AnchorIrrelevant(|newLines|, start, end + |newLines| - |Lines(w.files[path])|);
    FreshView(Lines(w.files[path]), newLines, start, end);
  }

  /** An anchor end below its start is raised to it either way. */
  lemma AnchorIrrelevant(n: nat, start: nat, anchorEnd: int)
    requires 1 <= start
    ensures n > 0 ==>
              ContextRange(n, start, anchorEnd)
              == ContextRange(n, start, if anchorEnd < start then start else anchorEnd)
  {
  }

  /** A path without a view gets the same context as one with an empty view. */
  lemma FreshView(oldLines: seq<string>, lines: seq<string>, start: nat, end: nat)
    requires 1 <= start <= end
    ensures forall from: nat, to: nat :: to <= |lines| ==>
              RememberRange([], lines, from, to)
              == RememberRange(AfterOldNew([], oldLines, lines, start, end), lines, from, to)
  {
    hide Sum;
  }

  lemma ReplacedLf(d: string, p: nat, oldLen: nat, text: string)
    requires LfOnly(d) && LfOnly(text) && p + oldLen <= |d|
    ensures LfOnly(ReplaceAt(d, p, oldLen, text))
  {
  }

  lemma NewFileAgrees(w: World, x: World, path: string, d: string)
    requires WorldAgrees(w) && LfOnly(d) && x.files == w.files[path := d] && x.views == w.views && path !in w.views
    ensures WorldAgrees(x)
  {
    hide Lines, Agrees, LfOnly;
  }

  lemma StepKeepsAgreement(w: World, op: Op)
    requires WorldAgrees(w) && CleanOp(op)
    ensures WorldAgrees(Apply(w, op).0)
  {
    hide WorldAgrees, Apply;
    match op
    case Read(_, _, _, _, _) => ShowAgrees(w, op);
    case Search(_, _) => ShowAgrees(w, op);
    case Write(_, _, _) => WholeWriteAgrees(w, op);
    case EditAll(_, _, _) => WholeWriteAgrees(w, op);
    case EditRange(_, _, _, _, _) => RangeEditAgrees(w, op);
    case EditOldNew(_, _, _, _) => OldNewEditAgrees(w, op);
  }

  /** In every run of the tools alone over LF-only files, after every call, each known entry of
      every view is the checksum of that line of the current file. */
  lemma {:induction false} ViewsAgree(w: World, ops: seq<Op>)
    requires WorldAgrees(w) && forall i :: 0 <= i < |ops| ==> CleanOp(ops[i])
    ensures WorldAgrees(Run(w, ops))
    decreases |ops|
  {
    hide WorldAgrees, Apply, CleanOp;
    if ops != [] {
      StepKeepsAgreement(w, ops[0]);
      ViewsAgree(Apply(w, ops[0]).0, ops[1..]);
    }
  }

  // ---------- "exactly once" ----------

  ghost predicate OccursOnce(d: string, old_: string) {
    exists p: nat :: At(d, p, old_) && forall q: nat :: At(d, q, old_) ==> q == p
  }

  /** The old text is meant to occur exactly once.  The second search starts after the first
      match, so overlapping matches pass for one: an accepted text occurs exactly once if and
      only if none starts inside the first match; a refused one never occurs exactly once. */
  lemma OnceUpToOverlap(d: string, old_: string)
    requires old_ != []
    ensures AcceptedAt(d, old_).Some? ==>
              var p := AcceptedAt(d, old_).value;
              OccursOnce(d, old_) <==> forall q: nat :: p < q < p + |old_| ==> !At(d, q, old_)
    ensures AcceptedAt(d, old_).None? ==> !OccursOnce(d, old_)
  {
    hide FindSub, At;
    var first := FindSub(d, 0, old_);
    if AcceptedAt(d, old_).Some? {
      var p := first.value;
      assert At(d, p, old_);
      forall q: nat | At(d, q, old_) ensures p <= q < p + |old_| {
        assert q < p ==> !At(d, q, old_);
      }
    } else if first.Some? {
      AtInside(d, first.value, old_);
      TwoOccurrences(d, old_, first.value, FindSub(d, first.value + |old_|, old_).value);
    } else {
      assert forall q: nat :: !At(d, q, old_);
    }
  }

  lemma TwoOccurrences(d: string, old_: string, p: nat, q: nat)
    requires At(d, p, old_) && At(d, q, old_) && p != q
    ensures !OccursOnce(d, old_)
  {
  }

  /** "aa" occurs twice in "aaa", and is accepted. */
  lemma OverlapAccepted()
    ensures AcceptedAt("aaa", "aa") == Some(0) && !OccursOnce("aaa", "aa")
  {
    assert "aaa"[0..2] == "aa" && "aaa"[1..3] == "aa";
    assert At("aaa", 0, "aa") && At("aaa", 1, "aa");
    assert !At("aaa", 2, "aa") && !At("aaa", 3, "aa");
    FindSubUnique("aaa", 0, "aa", 0);
    assert FindSub("aaa", 2, "aa").None?;
  }
}
