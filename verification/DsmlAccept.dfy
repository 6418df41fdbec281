/** Which texts the stanza parser accepts and which it refuses, by a description of the text
    alone: a sequence of tags and values, what it denotes, and the tags that end in an error. */
module DsmlAccept {
  import opened Basics
  import opened Options
  import opened Text
  import opened Dsml
  import opened DsmlResume
  import opened DsmlPrint

  // One element of a stanza with the spaces in front of it: an opening invoke tag, a parameter
  // with its value and closing tag, or a closing invoke tag.
  datatype Item =
    | Invoke(gap: string, tag: string, name: string)
    | Param(gap: string, tag: string, arg: Arg, closing: Closing)
    | CloseInvoke(gap: string, closing: Closing)

  // A whole stanza behind its opening marker.
  datatype Layout = Layout(items: seq<Item>, gap: string, closing: Closing)

  /** The first `name="..."` of a tag has this value. */
  ghost predicate HasAttr(tag: string, name: string, value: string) {
    exists pre, post ::
      tag == pre + (name + "=\"") + value + "\"" + post && '"' !in value
      && forall i: nat :: i < |pre| ==> !At(tag, i, name + "=\"")
  }

  /** A complete tag: it is not led by a space, and its only '>' is its last byte. */
  ghost predicate IsTag(tag: string) {
    tag != [] && !IsSpace(tag[0]) && tag[|tag| - 1] == '>' && forall k :: 0 <= k < |tag| - 1 ==> tag[k] != '>'
  }

  ghost predicate InvokeTagOf(tag: string, name: string) {
    IsTag(tag) && At(tag, 0, INVOKE_START) && HasAttr(tag, "name", name)
  }

  ghost predicate ParamTagOf(tag: string, name: string, isString: bool) {
    && IsTag(tag) && At(tag, 0, PARAM_START) && HasAttr(tag, "name", name)
    && (isString <==> HasAttr(tag, "string", "true"))
  }

  /** No accepted closing tag of a parameter stands anywhere in the value. */
  ghost predicate NoCloseIn(v: string) {
    forall c: Closing, i: nat :: c.Valid() ==> !At(v, i, CloseTag("parameter", c))
  }

  ghost predicate ItemOk(it: Item) {
    match it
    case Invoke(gap, tag, name) => Spaces(gap) && InvokeTagOf(tag, name)
    case Param(gap, tag, arg, closing) =>
      Spaces(gap) && ParamTagOf(tag, arg.name, arg.isString) && NoCloseIn(arg.value) && closing.Valid()
    case CloseInvoke(gap, closing) => Spaces(gap) && closing.Valid()
  }

  ghost predicate ItemsOk(items: seq<Item>) {
    forall i :: 0 <= i < |items| ==> ItemOk(items[i])
  }

  ghost predicate LayoutOk(d: Layout) {
    ItemsOk(d.items) && Spaces(d.gap) && d.closing.Valid()
  }

  function SpellItem(it: Item): string {
    match it
    case Invoke(gap, tag, _) => gap + tag
    case Param(gap, tag, arg, closing) => gap + tag + (arg.value + CloseTag("parameter", closing))
    case CloseInvoke(gap, closing) => gap + CloseTag("invoke", closing)
  }

  function SpellItems(items: seq<Item>): string {
    if items == [] then "" else SpellItem(items[0]) + SpellItems(items[1..])
  }

  function SpellLayout(d: Layout): string {
    SpellItems(d.items) + (d.gap + CloseTag("tool_calls", d.closing))
  }

  /** The calls that a sequence of elements denotes when `open` is under way: an opening tag starts
      a call and drops one that was not closed, a parameter outside a call counts for nothing, and
      a closing tag, like the end of the stanza, completes the call under way. */
  function Denotes(items: seq<Item>, open: Option<Call>): seq<Call>
    decreases |items|
  {
    if items == [] then Completed(open)
    else match items[0]
      case Invoke(_, _, name) => Denotes(items[1..], Some(Call(name, [])))
      case Param(_, _, arg, _) =>
        Denotes(items[1..], if open.Some? then Some(Call(open.value.name, open.value.args + [arg])) else None)
      case CloseInvoke(_, _) => Completed(open) + Denotes(items[1..], None)
  }

  function Completed(open: Option<Call>): seq<Call> {
    if open.Some? then [open.value] else []
  }

  /** A complete tag that no element can start with. */
  ghost predicate BadTag(tag: string) {
    && IsTag(tag)
    && (forall c: Closing :: c.Valid() ==> tag != CloseTag("tool_calls", c) && tag != CloseTag("invoke", c))
    && (forall name :: !InvokeTagOf(tag, name))
    && (forall name, isString :: !ParamTagOf(tag, name, isString))
  }

  /** What is reported of it. */
  function Complaint(tag: string): string {
    if At(tag, 0, INVOKE_START) then "tool invoke without name"
    else if At(tag, 0, PARAM_START) then "tool parameter without name"
    else "unexpected DSML tag: " + tag[..Min(|tag|, 80)]
  }

  // ---------- tags ----------

  /** An attribute is read exactly when it is there. */
  lemma {:induction false} AttrExact(tag: string, name: string, value: string)
    ensures ParseAttr(tag, name) == Some(value) <==> HasAttr(tag, name, value)
  {
    hide At, FindSub, FindChar;
    var pat := name + "=\"";
    if ParseAttr(tag, name) == Some(value) {
      var k := FindSub(tag, 0, pat).value;
      AtInside(tag, k, pat);
      var v := k + |pat|;
      var e := FindChar(tag, v, '"').value;
      assert tag[k..v] == pat by { AtSlice(tag, k, pat); }
      assert tag == tag[..k] + tag[k..v] + tag[v..e] + tag[e..e + 1] + tag[e + 1..];
      assert tag[e..e + 1] == "\"";
      assert tag == tag[..k] + pat + value + "\"" + tag[e + 1..];
    }
    if HasAttr(tag, name, value) {
      var pre, post :| tag == pre + pat + value + "\"" + post && '"' !in value
                       && forall i: nat :: i < |pre| ==> !At(tag, i, pat);
      AttrParts(tag, pre, pat, value, post);
      FindSubUnique(tag, 0, pat, |pre|);
      FindCharUnique(tag, |pre| + |pat|, '"', |pre| + |pat| + |value|);
    }
  }

  /** Every closing tag that is accepted is spelled as one. */
  lemma {:induction false} CloseSpelled(s: string, i: nat, name: string) returns (c: Closing)
    requires i <= |s| && CloseTagEnd(s, i, name).Some?
    ensures c.Valid() && At(s, i, CloseTag(name, c)) && i + |CloseTag(name, c)| == CloseTagEnd(s, i, name).value
  {
    hide At, SkipSpace, CloseTagEnd;
    var prefix := CLOSE_START + name;
    var j, k, m := CloseParts(s, i, name);
    var bar := if k > j then BAR else "";
    c := Closing(s[i + |prefix|..j], k > j, s[k..m]);
    SpacesOnly(s, i + |prefix|, j);
    SpacesOnly(s, k, m);
    AtThere(s, i + |prefix|, j);
    AtThere(s, k, m);
    AtThere(s, m, m + 1);
    assert s[m..m + 1] == ">";
    if k == j { AtEmpty(s, j); }
    AtSplit(s, i, prefix + c.before + bar + c.after, ">");
    AtSplit(s, i, prefix + c.before + bar, c.after);
    AtSplit(s, i, prefix + c.before, bar);
    AtSplit(s, i, prefix, c.before);
  }

  lemma CloseParts(s: string, i: nat, name: string) returns (j: nat, k: nat, m: nat)
    requires i <= |s| && CloseTagEnd(s, i, name).Some?
    ensures At(s, i, CLOSE_START + name) && i + |CLOSE_START + name| <= j <= k <= m < |s| && s[m] == '>'
    ensures (k == j || (k == j + |BAR| && At(s, j, BAR))) && CloseTagEnd(s, i, name) == Some(m + 1)
    ensures forall q :: i + |CLOSE_START + name| <= q < j ==> IsSpace(s[q])
    ensures forall q :: k <= q < m ==> IsSpace(s[q])
  {
    hide At;
    j := SkipSpace(s, i + |CLOSE_START + name|);
    k := if At(s, j, BAR) then j + |BAR| else j;
    if At(s, j, BAR) { AtInside(s, j, BAR); }
    m := SkipSpace(s, k);
  }

  lemma SpacesOnly(s: string, a: nat, b: nat)
    requires a <= b <= |s| && forall q :: a <= q < b ==> IsSpace(s[q])
    ensures Spaces(s[a..b])
  {
  }

  lemma AtThere(s: string, i: nat, j: nat)
    requires i <= j <= |s|
    ensures At(s, i, s[i..j])
  {
  }

  /** A closing tag stands at `i` exactly when one is spelled there. */
  lemma {:induction false} CloseExact(s: string, i: nat, name: string)
    requires i <= |s|
    ensures CloseTagEnd(s, i, name).Some? <==> exists c: Closing :: c.Valid() && At(s, i, CloseTag(name, c))
  {
    hide CloseTagEnd, At, CloseTag;
    if CloseTagEnd(s, i, name).Some? { var c := CloseSpelled(s, i, name); }
    forall c: Closing | c.Valid() && At(s, i, CloseTag(name, c)) ensures CloseTagEnd(s, i, name).Some? {
      ReadClose(s, i, name, c);
    }
  }

  /** A value without a closing tag is one in which none is found. */
  lemma {:induction false} NoCloseExact(v: string)
    ensures NoCloseIn(v) <==> ValueOk(v)
  {
    hide CloseTagEnd, At, CloseTag;
    var r := FindClose(v, 0, "parameter");
    if r.Some? {
      var c := CloseSpelled(v, r.value.0, "parameter");
    } else {
      forall c: Closing, i: nat | c.Valid() ensures !At(v, i, CloseTag("parameter", c)) {
        if At(v, i, CloseTag("parameter", c)) {
          AtInside(v, i, CloseTag("parameter", c));
          ReadClose(v, i, "parameter", c);
        }
      }
    }
  }

  // ---------- one element ----------

  function OpenOf(c: OpenCall): Option<Call> {
    if c.name.Some? then Some(Call(c.name.value, c.args)) else None
  }

  /** The open call behind an element, and the calls it completes. */
  function NextOpen(it: Item, open: Option<Call>): Option<Call> {
    match it
    case Invoke(_, _, name) => Some(Call(name, []))
    case Param(_, _, arg, _) =>
      if open.Some? then Some(Call(open.value.name, open.value.args + [arg])) else None
    case CloseInvoke(_, _) => None
  }

  function Closes(it: Item, open: Option<Call>): seq<Call> {
    if it.CloseInvoke? then Completed(open) else []
  }

  /** `q` is the parser `p` behind the element. */
  ghost predicate Behind(p: Parser, it: Item, q: Parser)
    requires p.Valid()
  {
    && q.Valid() && q.phase == Structural && q.raw == p.raw && q.pos == p.pos + |SpellItem(it)|
    && q.calls == p.calls + Closes(it, OpenOf(p.current)) && OpenOf(q.current) == NextOpen(it, OpenOf(p.current))
    && Parse(p) == Parse(q)
  }

  lemma InvokeOpens(p: Parser, tag: string, name: string)
    requires InvokeTagOf(tag, name)
    ensures OpenTag(p, tag) == Go(p.(current := OpenCall(Some(name), []), pos := p.pos + |tag|))
  {
    hide ParseAttr, HasAttr, At;
    AttrExact(tag, "name", name);
  }

  lemma ParamOpens(p: Parser, tag: string, name: string, isString: bool)
    requires ParamTagOf(tag, name, isString)
    ensures OpenTag(p, tag) == Go(p.(paramName := Some(name), paramIsString := isString, pos := p.pos + |tag|,
                                     valueStart := p.pos + |tag|, phase := ParamValue))
  {
    hide ParseAttr, HasAttr, At;
    ParamIsNotInvoke(tag);
    AttrExact(tag, "name", name);
    AttrExact(tag, "string", "true");
  }

  lemma ParamIsNotInvoke(tag: string)
    requires At(tag, 0, PARAM_START)
    ensures !At(tag, 0, INVOKE_START)
  {
    AtChars(tag, 0, PARAM_START);
    AtInside(tag, 0, PARAM_START);
    NotAt(tag, 0, INVOKE_START, 11);
  }

  lemma OpeningShape(tag: string)
    requires IsTag(tag) && (At(tag, 0, INVOKE_START) || At(tag, 0, PARAM_START))
    ensures |tag| > 2 && tag[0] == '<' && tag[1] != '/'
  {
    var start := if At(tag, 0, INVOKE_START) then INVOKE_START else PARAM_START;
    AtChars(tag, 0, start);
    AtInside(tag, 0, start);
    assert tag[0] == start[0] && tag[1] == start[1];
  }

  lemma StepInvokeTag(p: Parser, gap: string, tag: string, name: string)
    requires p.Valid() && p.phase == Structural && Spaces(gap) && InvokeTagOf(tag, name)
    requires At(p.raw, p.pos, gap + tag)
    ensures Step(p) == Go(p.(current := OpenCall(Some(name), []), pos := p.pos + |gap + tag|))
  {
    hide StepStructural, OpenTag, At, HasAttr;
    OpeningShape(tag);
    StepOpening(p, gap, tag);
    InvokeOpens(p.(pos := p.pos + |gap|), tag, name);
  }

  lemma StepParamTag(p: Parser, gap: string, tag: string, name: string, isString: bool)
    requires p.Valid() && p.phase == Structural && Spaces(gap) && ParamTagOf(tag, name, isString)
    requires At(p.raw, p.pos, gap + tag)
    ensures var after := p.pos + |gap + tag|;
            Step(p) == Go(p.(paramName := Some(name), paramIsString := isString, pos := after,
                             valueStart := after, phase := ParamValue))
  {
    hide StepStructural, OpenTag, At, HasAttr;
    OpeningShape(tag);
    StepOpening(p, gap, tag);
    ParamOpens(p.(pos := p.pos + |gap|), tag, name, isString);
  }

  /** An element that stands at the cursor is read. */
  lemma {:induction false} ReadItem(p: Parser, it: Item) returns (q: Parser)
    requires p.Valid() && p.phase == Structural && ItemOk(it) && At(p.raw, p.pos, SpellItem(it))
    ensures Behind(p, it, q)
  {
    hide Step, At, CloseTag, InvokeTagOf, ParamTagOf, NoCloseIn;
    assert p.calls + [] == p.calls;
    match it
    case Invoke(gap, tag, name) =>
      StepInvokeTag(p, gap, tag, name);
      q := Step(p).p;
      assert Behind(p, it, q);
    case Param(gap, tag, arg, closing) =>
      var value := arg.value + CloseTag("parameter", closing);
      AtSplit(p.raw, p.pos, gap + tag, value);
      StepParamTag(p, gap, tag, arg.name, arg.isString);
      var p1 := Step(p).p;
      NoCloseExact(arg.value);
      StepValueEnds(p1, arg.value, closing);
      q := Step(p1).p;
      assert Parse(p) == Parse(p1) == Parse(q);
      assert OpenOf(q.current) == NextOpen(it, OpenOf(p.current));
      assert Behind(p, it, q);
    case CloseInvoke(gap, closing) =>
      StepCloseCall(p, gap, closing);
      q := Step(p).p;
      assert Behind(p, it, q);
  }

  /** The parser goes no further: it stops at a structural place, or in a value without an end. */
  ghost predicate Halts(p: Parser)
    requires p.Valid() && p.phase == Structural
  {
    var r := Step(p);
    r.Stop? || (r.p.phase == ParamValue && Step(r.p).Stop?)
  }

  /** The next complete tag, with the spaces in front of it. */
  lemma {:induction false} TagAhead(p: Parser) returns (gap: string, tag: string)
    requires p.Valid() && p.phase == Structural && FindChar(p.raw, SkipSpace(p.raw, p.pos), '>').Some?
    ensures var i := SkipSpace(p.raw, p.pos);
            && Spaces(gap) && IsTag(tag) && At(p.raw, p.pos, gap + tag) && |gap| == i - p.pos
            && tag == p.raw[i..FindChar(p.raw, i, '>').value + 1]
  {
    hide FindChar, SkipSpace;
    var i := SkipSpace(p.raw, p.pos);
    var g := FindChar(p.raw, i, '>').value;
    gap, tag := p.raw[p.pos..i], p.raw[i..g + 1];
    Join(p.raw, p.pos, i, g + 1);
  }

  lemma Join(s: string, a: nat, b: nat, c: nat)
    requires a <= b <= c <= |s|
    ensures s[a..c] == s[a..b] + s[b..c]
  {
  }

  /** A closing tag in front is the next complete tag. */
  lemma {:induction false} CloseAhead(p: Parser, gap: string, tag: string, name: string)
    requires p.Valid() && IsTag(tag) && TagName(name) && At(p.raw, p.pos, gap + tag)
    ensures p.pos + |gap| <= |p.raw|
    ensures CloseTagEnd(p.raw, p.pos + |gap|, name).Some?
            <==> exists c: Closing :: c.Valid() && tag == CloseTag(name, c)
    ensures CloseTagEnd(p.raw, p.pos + |gap|, name).Some? ==>
              CloseTagEnd(p.raw, p.pos + |gap|, name).value == p.pos + |gap + tag|
  {
    hide CloseTagEnd, CloseTag, At;
    var i := p.pos + |gap|;
    AtSplit(p.raw, p.pos, gap, tag);
    AtInside(p.raw, i, tag);
    AtChars(p.raw, i, tag);
    if CloseTagEnd(p.raw, i, name).Some? {
      var c := CloseSpelled(p.raw, i, name);
      CloseTagShape(p.raw, i, name);
      var e := CloseTagEnd(p.raw, i, name).value;
      assert p.raw[i + |tag| - 1] == '>' && forall k :: i <= k < i + |tag| - 1 ==> p.raw[k] != '>';
      AtSlice(p.raw, i, tag);
      AtSlice(p.raw, i, CloseTag(name, c));
    }
    forall c: Closing | c.Valid() && tag == CloseTag(name, c) ensures CloseTagEnd(p.raw, i, name).Some? {
      ReadClose(p.raw, i, name, c);
    }
  }

  // ---------- the other way: what the parser has read is an element ----------

  ghost predicate TookClose(p: Parser, tag: string, q: Parser) {
    exists c: Closing ::
      && c.Valid() && tag == CloseTag("invoke", c)
      && q == p.(calls := Push(p.calls, p.current), current := Cleared(p.current), pos := q.pos)
  }

  ghost predicate TookInvoke(p: Parser, tag: string, q: Parser) {
    exists name :: InvokeTagOf(tag, name) && q == p.(current := OpenCall(Some(name), []), pos := q.pos)
  }

  ghost predicate TookParam(p: Parser, tag: string, q: Parser) {
    exists name, isString ::
      && ParamTagOf(tag, name, isString)
      && q == p.(paramName := Some(name), paramIsString := isString, pos := q.pos,
                 valueStart := q.pos, phase := ParamValue)
  }

  /** An iteration that goes on has read an element, or the opening tag of a parameter. */
  lemma {:induction false} TakeTag(p: Parser) returns (gap: string, tag: string)
    requires p.Valid() && p.phase == Structural && Step(p).Go?
    ensures var q := Step(p).p;
            && Spaces(gap) && IsTag(tag) && At(p.raw, p.pos, gap + tag) && q.pos == p.pos + |gap + tag|
            && (TookClose(p, tag, q) || TookInvoke(p, tag, q) || TookParam(p, tag, q))
  {
    hide OpenTag, CloseTagEnd, At, CloseTag, InvokeTagOf, ParamTagOf, SkipSpace, FindChar;
    var i := SkipSpace(p.raw, p.pos);
    if FindChar(p.raw, i, '>').None? {
      CloseTagNeedsAngle(p.raw, i, "tool_calls");
      CloseTagNeedsAngle(p.raw, i, "invoke");
      assert false;
    }
    gap, tag := TagAhead(p);
    CloseAhead(p, gap, tag, "tool_calls");
    CloseAhead(p, gap, tag, "invoke");
    if CloseTagEnd(p.raw, i, "invoke").None? {
      OpenedAs(p.(pos := i), tag);
    }
  }

  /** What an opening tag that is accepted is. */
  lemma {:induction false} OpenedAs(p: Parser, tag: string)
    requires IsTag(tag) && OpenTag(p, tag).Go?
    ensures var q := OpenTag(p, tag).p;
            q.pos == p.pos + |tag| && (TookInvoke(p, tag, q) || TookParam(p, tag, q))
  {
    hide ParseAttr, HasAttr, At, IsTag;
    var name := ParseAttr(tag, "name");
    AttrExact(tag, "name", name.value);
    AttrExact(tag, "string", "true");
    if At(tag, 0, INVOKE_START) {
      assert InvokeTagOf(tag, name.value);
    } else {
      assert ParamTagOf(tag, name.value, ParseAttr(tag, "string") == Some("true"));
    }
  }

  /** A value that ends has an element's shape. */
  lemma {:induction false} TakeValue(p: Parser) returns (value: string, c: Closing)
    requires p.Valid() && p.phase == ParamValue && p.paramName.Some? && Step(p).Go?
    ensures NoCloseIn(value) && c.Valid() && At(p.raw, p.pos, value + CloseTag("parameter", c))
    ensures var arg := Arg(p.paramName.value, value, p.paramIsString);
            Step(p) == Go(p.(current := p.current.(args := p.current.args + [arg]), paramName := None,
                             pos := p.pos + |value + CloseTag("parameter", c)|, phase := Structural))
  {
    hide CloseTagEnd, At, CloseTag, NoCloseIn;
    var (e, after) := FindClose(p.raw, p.valueStart, "parameter").value;
    value := p.raw[p.pos..e];
    c := CloseSpelled(p.raw, e, "parameter");
    AtThere(p.raw, p.pos, e);
    AtSplit(p.raw, p.pos, value, CloseTag("parameter", c));
    NothingFound(p.raw, p.pos, e);
    NoCloseExact(value);
  }

  /** In front of the first closing tag there is none, not in the bytes taken alone either. */
  lemma {:induction false} NothingFound(s: string, i: nat, e: nat)
    requires i <= e <= |s| && forall k :: i <= k < e ==> CloseTagEnd(s, k, "parameter").None?
    requires CloseTagEnd(s, e, "parameter").Some?
    ensures ValueOk(s[i..e])
  {
    hide CloseTagEnd, At, CloseTag;
    var v := s[i..e];
    var r := FindClose(v, 0, "parameter");
    if r.Some? {
      var c := CloseSpelled(v, r.value.0, "parameter");
      AtInside(v, r.value.0, CloseTag("parameter", c));
      SliceAt(s, i, e, r.value.0, CloseTag("parameter", c));
      ReadClose(s, i + r.value.0, "parameter", c);
      CloseNotEmpty("parameter", c);
      assert false;
    }
  }

  lemma CloseNotEmpty(name: string, c: Closing)
    ensures |CloseTag(name, c)| > 0
  {
  }

  lemma SliceAt(s: string, i: nat, e: nat, k: nat, pat: string)
    requires i <= e <= |s| && At(s[i..e], k, pat)
    ensures At(s, i + k, pat)
  {
    assert s == s[..i] + (s[i..e] + s[e..]);
    AtAppend(s[i..e], s[e..], k, pat);
    AtInside(s[i..e], k, pat);
    AtShift(s[..i], s[i..e] + s[e..], k, pat);
  }

  lemma ItemNotEmpty(it: Item)
    requires ItemOk(it)
    ensures |SpellItem(it)| > 0
  {
  }

  /** Where the parser does not halt it has read an element. */
  lemma {:induction false} TakeItem(p: Parser) returns (it: Item, q: Parser)
    requires p.Valid() && p.phase == Structural && !Halts(p)
    ensures ItemOk(it) && At(p.raw, p.pos, SpellItem(it)) && Behind(p, it, q) && p.pos < q.pos
  {
    hide Step, At, CloseTag, InvokeTagOf, ParamTagOf, NoCloseIn, IsTag;
    var gap, tag := TakeTag(p);
    var p1 := Step(p).p;
    if p1.phase == ParamValue {
      var name, isString :| ParamTagOf(tag, name, isString)
        && p1 == p.(paramName := Some(name), paramIsString := isString, pos := p1.pos,
                    valueStart := p1.pos, phase := ParamValue);
      var value, c := TakeValue(p1);
      it := Param(gap, tag, Arg(name, value, isString), c);
      AtSplit(p.raw, p.pos, gap + tag, value + CloseTag("parameter", c));
    } else if TookClose(p, tag, p1) {
      var c: Closing :| c.Valid() && tag == CloseTag("invoke", c)
        && p1 == p.(calls := Push(p.calls, p.current), current := Cleared(p.current), pos := p1.pos);
      it := CloseInvoke(gap, c);
    } else {
      var name :| InvokeTagOf(tag, name) && p1 == p.(current := OpenCall(Some(name), []), pos := p1.pos);
      it := Invoke(gap, tag, name);
    }
    ItemNotEmpty(it);
    q := ReadItem(p, it);
  }

  // ---------- whole stanzas ----------

  /** `q` is the parser `p` behind some elements. */
  ghost predicate BehindAll(p: Parser, items: seq<Item>, q: Parser)
    requires p.Valid()
  {
    && q.Valid() && q.phase == Structural && q.raw == p.raw && q.pos == p.pos + |SpellItems(items)|
    && Parse(p) == Parse(q)
    && q.calls + Completed(OpenOf(q.current)) == p.calls + Denotes(items, OpenOf(p.current))
  }

  /** A first element and more. */
  lemma FirstItem(p: Parser, it: Item, q: Parser, rest: seq<Item>, r: Parser)
    requires p.Valid() && Behind(p, it, q) && BehindAll(q, rest, r)
    ensures BehindAll(p, [it] + rest, r) && SpellItems([it] + rest) == SpellItem(it) + SpellItems(rest)
  {
    hide Parse, SpellItem, SpellItems, Denotes, Closes, NextOpen;
    var all := [it] + rest;
    var open := OpenOf(p.current);
    SpellFirst(it, rest);
    DenotesFirst(it, rest, open);
    assert p.calls + Closes(it, open) + Denotes(rest, NextOpen(it, open)) == p.calls + Denotes(all, open);
  }

  lemma SpellFirst(it: Item, rest: seq<Item>)
    ensures SpellItems([it] + rest) == SpellItem(it) + SpellItems(rest)
  {
    hide SpellItem;
    assert ([it] + rest)[1..] == rest;
  }

  lemma DenotesFirst(it: Item, rest: seq<Item>, open: Option<Call>)
    ensures Denotes([it] + rest, open) == Closes(it, open) + Denotes(rest, NextOpen(it, open))
  {
    assert ([it] + rest)[1..] == rest;
    assert it.CloseInvoke? || Closes(it, open) + Denotes(rest, NextOpen(it, open)) == Denotes(rest, NextOpen(it, open));
  }

  lemma NoItems(p: Parser)
    requires p.Valid() && p.phase == Structural
    ensures BehindAll(p, [], p)
  {
    hide Parse;
  }

  /** Elements that stand at the cursor are read one after the other. */
  lemma {:induction false} ReadItems(p: Parser, items: seq<Item>) returns (q: Parser)
    requires p.Valid() && p.phase == Structural && ItemsOk(items) && At(p.raw, p.pos, SpellItems(items))
    ensures BehindAll(p, items, q)
    decreases |items|
  {
    hide Parse, ItemOk, SpellItem, At, Behind, BehindAll;
    if items == [] {
      q := p;
      NoItems(p);
    } else {
      AtSplit(p.raw, p.pos, SpellItem(items[0]), SpellItems(items[1..]));
      var p1 := ReadItem(p, items[0]);
      assert p1.Valid() && p1.phase == Structural && p1.raw == p.raw && p1.pos == p.pos + |SpellItem(items[0])| by {
        BehindMeans(p, items[0], p1);
      }
      q := ReadItems(p1, items[1..]);
      FirstItem(p, items[0], p1, items[1..], q);
      assert [items[0]] + items[1..] == items;
    }
  }

  lemma BehindMeans(p: Parser, it: Item, q: Parser)
    requires p.Valid() && Behind(p, it, q)
    ensures q.Valid() && q.phase == Structural && q.raw == p.raw && q.pos == p.pos + |SpellItem(it)|
  {
  }

  /** Up to where the parser halts it has read elements. */
  lemma {:induction false} TakeItems(p: Parser) returns (items: seq<Item>, q: Parser)
    requires p.Valid() && p.phase == Structural
    ensures ItemsOk(items) && At(p.raw, p.pos, SpellItems(items)) && BehindAll(p, items, q)
    ensures q.Valid() && q.phase == Structural && q.raw == p.raw && q.pos == p.pos + |SpellItems(items)| && Halts(q)
    decreases |p.raw| - p.pos
  {
    hide Parse, ItemOk, SpellItem, At, Behind, BehindAll, Halts;
    if Halts(p) {
      items, q := [], p;
      NoItems(p);
      AtEmpty(p.raw, p.pos);
    } else {
      var it, p1 := TakeItem(p);
      BehindMeans(p, it, p1);
      var rest;
      rest, q := TakeItems(p1);
      items := [it] + rest;
      FirstItem(p, it, p1, rest, q);
      AtSplit(p.raw, p.pos, SpellItem(it), SpellItems(rest));
    }
  }

  /** How the parser halts: it is done behind a closing tag of the whole, in error at a bad tag, or
      it waits for more. */
  lemma {:induction false} HaltCases(p: Parser) returns (gap: string, tag: string, c: Closing)
    requires p.Valid() && p.phase == Structural && Halts(p)
    ensures Parse(p).phase == Done ==>
              && Spaces(gap) && c.Valid() && At(p.raw, p.pos, gap + CloseTag("tool_calls", c))
              && Parse(p).pos == p.pos + |gap + CloseTag("tool_calls", c)|
              && Parse(p).calls == p.calls + Completed(OpenOf(p.current))
    ensures Parse(p).phase == Error ==>
              && Spaces(gap) && BadTag(tag) && At(p.raw, p.pos, gap + tag) && Parse(p).error == Complaint(tag)
              && Parse(p).pos == p.pos + |gap|
    ensures Parse(p).phase != Done && Parse(p).phase != Error ==> Parse(p).Live()
  {
    hide OpenTag, CloseTagEnd, At, CloseTag, BadTag, IsTag, SkipSpace, FindChar, FindClose;
    gap, tag, c := "", "", Closing("", false, "");
    assert p.calls + [] == p.calls;
    if Step(p).Stop? && Step(p).p.Finished() {
      var i := SkipSpace(p.raw, p.pos);
      if FindChar(p.raw, i, '>').None? {
        CloseTagNeedsAngle(p.raw, i, "tool_calls");
        assert false;
      }
      gap, tag := TagAhead(p);
      CloseAhead(p, gap, tag, "tool_calls");
      CloseAhead(p, gap, tag, "invoke");
      if CloseTagEnd(p.raw, i, "tool_calls").Some? {
        var d: Closing :| d.Valid() && tag == CloseTag("tool_calls", d);
        c := d;
      } else {
        RefusedTag(p.(pos := i), tag);
      }
    }
  }

  /** An opening tag that is refused is a bad one, and is complained of. */
  lemma {:induction false} RefusedTag(p: Parser, tag: string)
    requires IsTag(tag) && OpenTag(p, tag).Stop?
    requires forall c: Closing :: c.Valid() ==> tag != CloseTag("tool_calls", c) && tag != CloseTag("invoke", c)
    ensures BadTag(tag) && OpenTag(p, tag).p.error == Complaint(tag)
  {
    hide ParseAttr, HasAttr, At, IsTag, CloseTag;
    forall name | true ensures !InvokeTagOf(tag, name) { AttrExact(tag, "name", name); }
    forall name, isString | true ensures !ParamTagOf(tag, name, isString) { AttrExact(tag, "name", name); }
  }

  /** A bad tag ends the parse. */
  /** A step at a tag that closes nothing opens it. */
  lemma {:induction false} StepOpens(p: Parser, gap: string, tag: string)
    requires p.Valid() && p.phase == Structural && Spaces(gap) && IsTag(tag) && At(p.raw, p.pos, gap + tag)
    requires CloseTagEnd(p.raw, p.pos + |gap|, "tool_calls").None? && CloseTagEnd(p.raw, p.pos + |gap|, "invoke").None?
    ensures StepStructural(p) == OpenTag(p.(pos := p.pos + |gap|), tag)
  {
    hide OpenTag, CloseTagEnd, At, SkipSpace, FindChar;
    var i := p.pos + |gap|;
    AtSplit(p.raw, p.pos, gap, tag);
    AtInside(p.raw, i, tag);
    AtChars(p.raw, i, tag);
    SkipGap(p.raw, p.pos, gap);
    FindCharUnique(p.raw, i, '>', i + |tag| - 1);
    assert p.raw[i..i + |tag|] == tag by { AtSlice(p.raw, i, tag); }
  }

  lemma {:induction false} BadTagStops(p: Parser, gap: string, tag: string)
    requires p.Valid() && p.phase == Structural && Spaces(gap) && BadTag(tag) && At(p.raw, p.pos, gap + tag)
    ensures Parse(p).phase == Error && Parse(p).error == Complaint(tag)
  {
    hide OpenTag, CloseTagEnd, At, CloseTag, InvokeTagOf, ParamTagOf, StepStructural, IsTag;
    CloseAhead(p, gap, tag, "tool_calls");
    CloseAhead(p, gap, tag, "invoke");
    StepOpens(p, gap, tag);
    BadOpens(p.(pos := p.pos + |gap|), tag);
  }

  lemma {:induction false} BadOpens(p: Parser, tag: string)
    requires BadTag(tag)
    ensures OpenTag(p, tag).Stop? && OpenTag(p, tag).p.error == Complaint(tag)
  {
    hide HasAttr, At, IsTag, CloseTag;
    if OpenTag(p, tag).Go? { OpenedAs(p, tag); }
  }

  /** Acceptance: behind its opening marker a text ends done with calls `cs` if and only if it
      starts with a stanza, spelled in elements, that denotes `cs`. */
  lemma {:induction false} AcceptedExactly(t: string, cs: seq<Call>)
    ensures var q := Parse(Begin(Initial).Append(t));
            q.phase == Done && q.calls == cs
            <==> exists d: Layout :: LayoutOk(d) && At(t, 0, SpellLayout(d)) && Denotes(d.items, None) == cs
    ensures forall d: Layout :: LayoutOk(d) && At(t, 0, SpellLayout(d)) ==>
              Parse(Begin(Initial).Append(t)).pos == |START| + |SpellLayout(d)|
  {
    hide Parse, At, CloseTag, SpellItems, ItemsOk, Begin, Halts;
    var p := Start(t);
    if Parse(p).phase == Done {
      var items, r := TakeItems(p);
      BehindAllMeans(p, items, r);
      var gap, tag, c := HaltCases(r);
      var d := Layout(items, gap, c);
      AtSplit(p.raw, p.pos, SpellItems(items), gap + CloseTag("tool_calls", c));
      AtBehindMark(t, SpellLayout(d));
      assert LayoutOk(d) && At(t, 0, SpellLayout(d));
      assert Parse(p).calls == Denotes(items, None);
    }
    forall d: Layout | LayoutOk(d) && At(t, 0, SpellLayout(d))
      ensures Parse(p).phase == Done && Parse(p).calls == Denotes(d.items, None)
      ensures Parse(p).pos == |START| + |SpellLayout(d)|
    {
      AtBehindMark(t, SpellLayout(d));
      AtSplit(p.raw, p.pos, SpellItems(d.items), d.gap + CloseTag("tool_calls", d.closing));
      var r := ReadItems(p, d.items);
      BehindAllMeans(p, d.items, r);
      StepCloseAll(r, d.gap, d.closing);
      DoneStep(r);
      PushedIs(r.calls, r.current);
    }
  }

  lemma PushedIs(calls: seq<Call>, c: OpenCall)
    ensures Push(calls, c) == calls + Completed(OpenOf(c))
  {
    assert calls + [] == calls;
  }

  lemma DoneStep(p: Parser)
    requires p.Valid() && p.Live() && Step(p).Stop?
    ensures Parse(p) == Step(p).p
  {
    hide Step;
  }

  lemma BehindAllMeans(p: Parser, items: seq<Item>, q: Parser)
    requires p.Valid() && BehindAll(p, items, q)
    ensures q.Valid() && q.phase == Structural && q.raw == p.raw && q.pos == p.pos + |SpellItems(items)|
    ensures Parse(p) == Parse(q)
    ensures q.calls + Completed(OpenOf(q.current)) == p.calls + Denotes(items, OpenOf(p.current))
  {
    hide Parse;
  }

  /** The parser behind the marker, with a text to come. */
  lemma Start(t: string) returns (p: Parser)
    ensures p == Begin(Initial).Append(t)
    ensures p.Valid() && p.phase == Structural && p.raw == START + t && p.pos == |START|
    ensures p.current == NoCall && p.calls == []
  {
    p := Begin(Initial).Append(t);
  }

  lemma AtBehindMark(t: string, x: string)
    ensures At(START + t, |START|, x) == At(t, 0, x)
  {
    AtShift(START, t, 0, x);
  }

  /** Refusal: it ends in error if and only if some elements and then a bad tag stand there; what
      is reported is the complaint about that tag. */
  lemma {:induction false} RefusedExactly(t: string, msg: string)
    ensures var q := Parse(Begin(Initial).Append(t));
            q.phase == Error && q.error == msg
            <==> exists items: seq<Item>, gap: string, tag: string ::
                   Refuses(t, items, gap, tag) && Complaint(tag) == msg
  {
    hide Parse, At, SpellItems, ItemsOk, Begin, Halts, BadTag, Complaint;
    var p := Start(t);
    if Parse(p).phase == Error {
      var items, r := TakeItems(p);
      BehindAllMeans(p, items, r);
      var gap, tag, c := HaltCases(r);
      AtSplit(p.raw, p.pos, SpellItems(items), gap + tag);
      AtBehindMark(t, SpellItems(items) + (gap + tag));
      assert Refuses(t, items, gap, tag);
    }
    forall items: seq<Item>, gap: string, tag: string | Refuses(t, items, gap, tag)
      ensures Parse(p).phase == Error && Parse(p).error == Complaint(tag)
    {
      AtBehindMark(t, SpellItems(items) + (gap + tag));
      AtSplit(p.raw, p.pos, SpellItems(items), gap + tag);
      var r := ReadItems(p, items);
      BehindAllMeans(p, items, r);
      BadTagStops(r, gap, tag);
    }
  }

  ghost predicate Refuses(t: string, items: seq<Item>, gap: string, tag: string) {
    ItemsOk(items) && Spaces(gap) && BadTag(tag) && At(t, 0, SpellItems(items) + (gap + tag))
  }
}
