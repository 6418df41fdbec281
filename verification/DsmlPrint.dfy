/** The documented DSML shape as a printer, and the round trip through the parser. */
module DsmlPrint {
  import opened Options
  import opened Text
  import opened Dsml
  import opened DsmlResume

  // How a closing tag is spelled: spaces, perhaps a stray bar, spaces.
  datatype Closing = Closing(before: string, bar: bool, after: string) {
    ghost predicate Valid() {
      (forall c :: c in before ==> IsSpace(c)) && (forall c :: c in after ==> IsSpace(c))
    }
  }

  // An argument or call as laid out in text: the spaces in front and the closing tag's spelling.
  datatype ArgText = ArgText(gap: string, arg: Arg, closing: Closing)
  datatype CallText = CallText(gap: string, name: string, args: seq<ArgText>, closeGap: string, closing: Closing)
  datatype Stanza = Stanza(calls: seq<CallText>, closeGap: string, closing: Closing)

  ghost predicate Spaces(s: string) {
    forall c :: c in s ==> IsSpace(c)
  }

  /** Names as identifiers, and more: no quote, no angle bracket, no equals sign. */
  ghost predicate NameOk(n: string) {
    '"' !in n && '>' !in n && '=' !in n
  }

  /** A value holds no accepted closing tag of a parameter. */
  ghost predicate ValueOk(v: string) {
    FindClose(v, 0, "parameter").None?
  }

  ghost predicate ArgOk(a: ArgText) {
    Spaces(a.gap) && NameOk(a.arg.name) && ValueOk(a.arg.value) && a.closing.Valid()
  }

  ghost predicate CallOk(c: CallText) {
    && Spaces(c.gap) && NameOk(c.name) && Spaces(c.closeGap) && c.closing.Valid()
    && forall a :: a in c.args ==> ArgOk(a)
  }

  ghost predicate StanzaOk(d: Stanza) {
    && Spaces(d.closeGap) && d.closing.Valid()
    && forall c :: c in d.calls ==> CallOk(c)
  }

  // ---------- printer ----------

  function CloseTag(name: string, c: Closing): string {
    CLOSE_START + name + c.before + (if c.bar then BAR else "") + c.after + ">"
  }

  function InvokeTag(name: string): string {
    INVOKE_START + " name=\"" + name + "\">"
  }

  function ParamTag(name: string, flag: string): string {
    PARAM_START + " name=\"" + name + "\" string=\"" + flag + "\">"
  }

  function Flag(isString: bool): string {
    if isString then "true" else "false"
  }

  function PrintArg(a: ArgText): string {
    a.gap + ParamTag(a.arg.name, Flag(a.arg.isString)) + a.arg.value + CloseTag("parameter", a.closing)
  }

  function PrintArgs(args: seq<ArgText>): string {
    if args == [] then "" else PrintArg(args[0]) + PrintArgs(args[1..])
  }

  function PrintCall(c: CallText): string {
    c.gap + InvokeTag(c.name) + PrintArgs(c.args) + (c.closeGap + CloseTag("invoke", c.closing))
  }

  function PrintCalls(calls: seq<CallText>): string {
    if calls == [] then "" else PrintCall(calls[0]) + PrintCalls(calls[1..])
  }

  /** The stanza after its opening marker. */
  function Print(d: Stanza): string {
    PrintCalls(d.calls) + (d.closeGap + CloseTag("tool_calls", d.closing))
  }

  function Args(args: seq<ArgText>): seq<Arg> {
    seq(|args|, i requires 0 <= i < |args| => args[i].arg)
  }

  function Calls(calls: seq<CallText>): seq<Call> {
    seq(|calls|, i requires 0 <= i < |calls| => Call(calls[i].name, Args(calls[i].args)))
  }

  // ---------- spaces ----------

  /** The skipped run is exactly a run of spaces followed by a non-space. */
  lemma SkipGap(s: string, i: nat, gap: string)
    requires At(s, i, gap) && Spaces(gap)
    requires i + |gap| == |s| || !IsSpace(s[i + |gap|])
    ensures SkipSpace(s, i) == i + |gap|
  {
    AtChars(s, i, gap);
    SkipSpaceUnique(s, i, i + |gap|);
  }

  // ---------- reading tags ----------

  lemma ReadClose(s: string, i: nat, name: string, c: Closing)
    requires c.Valid() && At(s, i, CloseTag(name, c))
    ensures CloseTagEnd(s, i, name) == Some(i + |CloseTag(name, c)|)
  {
    hide TagEnd, SkipSpace;
    var prefix, bar := CLOSE_START + name, if c.bar then BAR else "";
    AtSplit(s, i, prefix + c.before + bar + c.after, ">");
    AtSplit(s, i, prefix + c.before + bar, c.after);
    AtSplit(s, i, prefix + c.before, bar);
    AtSplit(s, i, prefix, c.before);
    ReadTagEnd(s, i, prefix, c, BAR);
  }

  lemma ReadTagEnd(s: string, i: nat, prefix: string, c: Closing, bar: string)
    requires c.Valid() && bar != "" && !IsSpace(bar[0]) && bar[0] != '>'
    requires var j := i + |prefix|;
             var k := j + |c.before|;
             var m := k + (if c.bar then |bar| else 0);
             var e := m + |c.after|;
             && At(s, i, prefix) && At(s, j, c.before) && (c.bar ==> At(s, k, bar))
             && At(s, m, c.after) && At(s, e, ">")
    ensures TagEnd(s, i, prefix, bar) ==
            Some(i + |prefix| + |c.before| + (if c.bar then |bar| else 0) + |c.after| + 1)
  {
    hide SkipSpace, At;
    var j := i + |prefix|;
    var k := j + |c.before|;
    var m := k + (if c.bar then |bar| else 0);
    var e := m + |c.after|;
    AtChars(s, e, ">");
    AtInside(s, e, ">");
    if c.bar {
      AtChars(s, k, bar);
      SkipGap(s, j, c.before);
      SkipGap(s, m, c.after);
    } else {
      AtSplit(s, j, c.before, c.after);
      SkipGap(s, j, c.before + c.after);
      SkipGap(s, e, "") by { assert At(s, e, "") by { AtEmpty(s, e); } }
      NotAt(s, e, bar, 0);
    }
  }

  /** Two tag names that differ in their first byte are told apart. */
  lemma OtherClose(s: string, i: nat, name: string, other: string, rest: string)
    requires At(s, i, CLOSE_START + name + rest)
    requires name != "" && other != "" && name[0] != other[0]
    ensures CloseTagEnd(s, i, other).None?
  {
    hide SkipSpace;
    AtSplit(s, i, CLOSE_START + name, rest);
    AtChars(s, i, CLOSE_START + name);
    assert s[i + |CLOSE_START|] == (CLOSE_START + name)[|CLOSE_START|];
    NotAt(s, i, CLOSE_START + other, |CLOSE_START|);
  }

  lemma OpeningIsNotClosing(s: string, i: nat, name: string)
    requires i + 1 < |s| && s[i + 1] != '/'
    ensures CloseTagEnd(s, i, name).None?
  {
    hide SkipSpace;
    if At(s, i, CLOSE_START + name) { AtChars(s, i, CLOSE_START + name); }
  }

  /** The first `key="` of a tag is found through its quote: a tag `head + key + "=\""...` in
      which no earlier quote follows an `=` that ends `key`. */
  lemma ReadAttr(tag: string, head: string, key: string, value: string, tail: string)
    requires tag == head + (key + "=\"") + value + "\"" + tail
    requires '"' !in value && key != ""
    requires forall k :: 0 < k < |head| && head[k] == '"' ==>
               head[k - 1] != '=' || k < 2 || head[k - 2] != key[|key| - 1]
    requires '"' !in key
    ensures ParseAttr(tag, key) == Some(value)
  {
    hide At, FindSub, FindChar;
    var pat := key + "=\"";
    AttrParts(tag, head, pat, value, tail);
    NoEarlierAttr(tag, head, key);
    FindSubUnique(tag, 0, pat, |head|);
    var v := |head| + |pat|;
    FindCharUnique(tag, v, '"', v + |value|);
  }

  /** Where the parts of an attribute lie in its tag. */
  lemma AttrParts(tag: string, head: string, pat: string, value: string, tail: string)
    requires tag == head + pat + value + "\"" + tail
    ensures var v := |head| + |pat|;
            && At(tag, 0, head) && At(tag, |head|, pat) && v + |value| < |tag| && tag[v + |value|] == '"'
            && (forall k :: v <= k < v + |value| ==> tag[k] == value[k - v])
            && tag[v..v + |value|] == value
  {
    var v := |head| + |pat|;
    assert At(tag, 0, tag) by { assert tag[0..|tag|] == tag; }
    hide At;
    AtSplit(tag, 0, head + pat + value + "\"", tail);
    AtSplit(tag, 0, head + pat + value, "\"");
    AtSplit(tag, 0, head + pat, value);
    AtSplit(tag, 0, head, pat);
    AtInside(tag, v + |value|, "\"");
    assert tag[v..v + |value|] == value by { AtSlice(tag, v, value); }
    AtChars(tag, v, value);
    AtChars(tag, v + |value|, "\"");
  }

  lemma AtSlice(s: string, i: nat, pat: string)
    requires At(s, i, pat)
    ensures i + |pat| <= |s| && s[i..i + |pat|] == pat
  {
  }

  lemma NoEarlierAttr(tag: string, head: string, key: string)
    requires key != "" && '"' !in key && At(tag, 0, head) && At(tag, |head|, key + "=\"")
    requires forall k :: 0 < k < |head| && head[k] == '"' ==>
               head[k - 1] != '=' || k < 2 || head[k - 2] != key[|key| - 1]
    ensures forall j :: 0 <= j < |head| ==> !At(tag, j, key + "=\"")
  {
    hide At;
    var pat := key + "=\"";
    var k0 := |head|;
    AtChars(tag, 0, head);
    AtChars(tag, k0, pat);
    AtInside(tag, k0, pat);
    forall j | 0 <= j < k0 ensures !At(tag, j, pat) {
      var q := j + |pat| - 1;
      if tag[q] != '"' {
        NotAt(tag, j, pat, |pat| - 1);
      } else if tag[q - 1] != '=' {
        NotAt(tag, j, pat, |pat| - 2);
      } else {
        NotAt(tag, j, pat, |pat| - 3);
      }
    }
  }

  lemma ReadInvoke(p: Parser, name: string)
    requires NameOk(name)
    ensures OpenTag(p, InvokeTag(name)) ==
            Go(p.(current := OpenCall(Some(name), []), pos := p.pos + |InvokeTag(name)|))
  {
    hide ParseAttr;
    var tag, head := InvokeTag(name), INVOKE_START + " ";
    assert tag == head + ("name" + "=\"") + name + "\"" + ">";
    ReadAttr(tag, head, "name", name, ">");
    assert tag[0..|INVOKE_START|] == INVOKE_START;
  }

  lemma ReadParam(p: Parser, name: string, flag: string)
    requires NameOk(name) && (flag == "true" || flag == "false")
    ensures var after := p.pos + |ParamTag(name, flag)|;
            OpenTag(p, ParamTag(name, flag)) ==
            Go(p.(paramName := Some(name), paramIsString := flag == "true",
                  pos := after, valueStart := after, phase := ParamValue))
  {
    hide ParseAttr, At, ParamTag;
    ParamName(name, flag);
    ReadFlag(name, flag);
  }

  lemma ParamName(name: string, flag: string)
    requires NameOk(name)
    ensures var tag := ParamTag(name, flag);
            At(tag, 0, PARAM_START) && !At(tag, 0, INVOKE_START) && ParseAttr(tag, "name") == Some(name)
  {
    hide ParseAttr;
    var tag, head := ParamTag(name, flag), PARAM_START + " ";
    assert tag[0..|PARAM_START|] == PARAM_START;
    NotAt(tag, 0, INVOKE_START, 11);
    hide At;
    assert tag == head + ("name" + "=\"") + name + "\"" + (" string=\"" + flag + "\">");
    ReadAttr(tag, head, "name", name, " string=\"" + flag + "\">");
  }

  lemma ReadFlag(name: string, flag: string)
    requires NameOk(name) && '"' !in flag
    ensures ParseAttr(ParamTag(name, flag), "string") == Some(flag)
  {
    hide ParseAttr;
    var first := PARAM_START + " name=\"";
    var head := first + name + "\" ";
    assert ParamTag(name, flag) == head + ("string" + "=\"") + flag + "\"" + ">";
    assert forall k :: 0 <= k < |first| ==> head[k] == first[k];
    assert forall k :: |first| <= k < |first| + |name| ==> head[k] == name[k - |first|];
    assert first[|first| - 3] == 'e';
    ReadAttr(ParamTag(name, flag), head, "string", flag, ">");
  }

  // ---------- single steps over printed text ----------

  /** A complete opening tag after a gap is handed to OpenTag. */
  lemma StepOpening(p: Parser, gap: string, tag: string)
    requires p.Valid() && p.phase == Structural && Spaces(gap)
    requires At(p.raw, p.pos, gap + tag)
    requires |tag| > 2 && tag[0] == '<' && tag[1] != '/' && tag[|tag| - 1] == '>'
    requires forall k :: 0 <= k < |tag| - 1 ==> tag[k] != '>'
    ensures p.pos + |gap| <= |p.raw|
    ensures StepStructural(p) == OpenTag(p.(pos := p.pos + |gap|), tag)
  {
    hide OpenTag, CloseTagEnd, SkipSpace, FindChar;
    var i := p.pos + |gap|;
    AtSplit(p.raw, p.pos, gap, tag);
    AtChars(p.raw, i, tag);
    SkipGap(p.raw, p.pos, gap);
    OpeningIsNotClosing(p.raw, i, "tool_calls");
    OpeningIsNotClosing(p.raw, i, "invoke");
    FindCharUnique(p.raw, i, '>', i + |tag| - 1);
    assert p.raw[i..i + |tag|] == tag;
  }

  lemma StepInvoke(p: Parser, gap: string, name: string)
    requires p.Valid() && p.phase == Structural && Spaces(gap) && NameOk(name)
    requires At(p.raw, p.pos, gap + InvokeTag(name))
    ensures Step(p) == Go(p.(current := OpenCall(Some(name), []), pos := p.pos + |gap + InvokeTag(name)|))
  {
    hide StepStructural, OpenTag;
    StepOpening(p, gap, InvokeTag(name));
    ReadInvoke(p.(pos := p.pos + |gap|), name);
  }

  lemma StepParam(p: Parser, gap: string, name: string, flag: string)
    requires p.Valid() && p.phase == Structural && Spaces(gap) && NameOk(name)
    requires flag == "true" || flag == "false"
    requires At(p.raw, p.pos, gap + ParamTag(name, flag))
    ensures var after := p.pos + |gap + ParamTag(name, flag)|;
            Step(p) == Go(p.(paramName := Some(name), paramIsString := flag == "true",
                             pos := after, valueStart := after, phase := ParamValue))
  {
    hide StepStructural, OpenTag;
    ParamTagShape(name, flag);
    StepOpening(p, gap, ParamTag(name, flag));
    ReadParam(p.(pos := p.pos + |gap|), name, flag);
  }

  lemma ParamTagShape(name: string, flag: string)
    requires NameOk(name) && '>' !in flag
    ensures var tag := ParamTag(name, flag);
            && |tag| > 2 && tag[0] == '<' && tag[1] != '/' && tag[|tag| - 1] == '>'
            && forall k :: 0 <= k < |tag| - 1 ==> tag[k] != '>'
  {
    var parts := [PARAM_START + " name=\"", name, "\" string=\"", flag, "\""];
    assert '>' !in parts[0] && '>' !in parts[2] && '>' !in parts[4];
    assert ParamTag(name, flag) == parts[0] + parts[1] + parts[2] + parts[3] + parts[4] + ">";
  }

  lemma StepCloseCall(p: Parser, gap: string, c: Closing)
    requires p.Valid() && p.phase == Structural && Spaces(gap) && c.Valid()
    requires At(p.raw, p.pos, gap + CloseTag("invoke", c))
    ensures Step(p) == Go(p.(calls := Push(p.calls, p.current), current := Cleared(p.current),
                             pos := p.pos + |gap + CloseTag("invoke", c)|))
  {
    hide OpenTag, CloseTagEnd, SkipSpace, FindChar, StepValue, CloseTag, At;
    CloseReads(p.raw, p.pos, gap, "invoke", "tool_calls", c);
  }

  lemma StepCloseAll(p: Parser, gap: string, c: Closing)
    requires p.Valid() && p.phase == Structural && Spaces(gap) && c.Valid()
    requires At(p.raw, p.pos, gap + CloseTag("tool_calls", c))
    ensures Step(p) == Stop(p.(calls := Push(p.calls, p.current), current := Cleared(p.current),
                               pos := p.pos + |gap + CloseTag("tool_calls", c)|, phase := Done))
  {
    hide OpenTag, CloseTagEnd, SkipSpace, FindChar, StepValue, CloseTag, At;
    CloseReads(p.raw, p.pos, gap, "tool_calls", "invoke", c);
  }

  lemma CloseReads(raw: string, pos: nat, gap: string, name: string, other: string, c: Closing)
    requires Spaces(gap) && c.Valid() && name != "" && other != "" && name[0] != other[0]
    requires At(raw, pos, gap + CloseTag(name, c))
    ensures pos <= |raw| && SkipSpace(raw, pos) == pos + |gap| < |raw|
    ensures CloseTagEnd(raw, pos + |gap|, name) == Some(pos + |gap + CloseTag(name, c)|)
    ensures CloseTagEnd(raw, pos + |gap|, other).None?
  {
    hide CloseTagEnd, SkipSpace;
    var tail := c.before + (if c.bar then BAR else "") + c.after + ">";
    assert CloseTag(name, c) == CLOSE_START + name + tail;
    AtSplit(raw, pos, gap, CloseTag(name, c));
    AtChars(raw, pos + |gap|, CloseTag(name, c));
    SkipGap(raw, pos, gap);
    ReadClose(raw, pos + |gap|, name, c);
    OtherClose(raw, pos + |gap|, name, other, tail);
  }

  // ---------- the value ----------

  lemma TagEndShift(a: string, s: string, i: nat, prefix: string, bar: string)
    requires i <= |s|
    ensures TagEnd(a + s, |a| + i, prefix, bar) ==
            match TagEnd(s, i, prefix, bar) { case None => None case Some(e) => Some(|a| + e) }
  {
    hide SkipSpace, At;
    AtShift(a, s, i, prefix);
    if At(s, i, prefix) {
      AtInside(s, i, prefix);
      SkipShift(a, s, i + |prefix|);
      var j := SkipSpace(s, i + |prefix|);
      AtShift(a, s, j, bar);
      if At(s, j, bar) { AtInside(s, j, bar); }
      var k := if At(s, j, bar) then j + |bar| else j;
      SkipShift(a, s, k);
    }
  }

  lemma SkipShift(a: string, s: string, i: nat)
    requires i <= |s|
    ensures SkipSpace(a + s, |a| + i) == |a| + SkipSpace(s, i)
  {
    var j := SkipSpace(s, i);
    SkipSpaceUnique(a + s, |a| + i, |a| + j);
  }

  lemma AtShift(a: string, s: string, i: nat, pat: string)
    requires i <= |s|
    ensures At(a + s, |a| + i, pat) == At(s, i, pat)
  {
    if i + |pat| <= |s| {
      assert (a + s)[|a| + i..|a| + i + |pat|] == s[i..i + |pat|];
    }
  }

  /** The printed closing tag is the first one the parser sees: none starts inside the value,
      not even one that would run on into the tag, because a tag holds no second '<'. */
  lemma ValueEnds(raw: string, i: nat, value: string, c: Closing)
    requires ValueOk(value) && c.Valid()
    requires At(raw, i, value + CloseTag("parameter", c))
    ensures i <= |raw|
    ensures FindClose(raw, i, "parameter") == Some((i + |value|, i + |value + CloseTag("parameter", c)|))
  {
    hide CloseTagEnd;
    var e := i + |value|;
    AtSplit(raw, i, value, CloseTag("parameter", c));
    AtChars(raw, e, CloseTag("parameter", c));
    assert raw[e] == '<';
    ReadClose(raw, e, "parameter", c);
    forall k | i <= k < e ensures CloseTagEnd(raw, k, "parameter").None? {
      if CloseTagEnd(raw, k, "parameter").Some? {
        CloseTagShape(raw, k, "parameter");
        InsideValue(raw, i, value, k);
      }
    }
    FindCloseUnique(raw, i, "parameter", e, i + |value + CloseTag("parameter", c)|);
  }

  /** A closing tag that starts and ends inside the value would be one of the value itself. */
  lemma InsideValue(raw: string, i: nat, value: string, k: nat)
    requires At(raw, i, value) && i <= k < i + |value|
    requires CloseTagEnd(raw, k, "parameter").Some?
    requires CloseTagEnd(raw, k, "parameter").value <= i + |value|
    ensures !ValueOk(value)
  {
    hide TagEnd;
    var after := CloseTagEnd(raw, k, "parameter").value;
    var a, rest := raw[..i], raw[i + |value|..];
    assert raw == a + (value + rest);
    TagEndShift(a, value + rest, k - i, CLOSE_START + "parameter", BAR);
    assert value[after - 1 - i] == raw[i..i + |value|][after - 1 - i] == '>';
    CloseTagAppend(value, rest, k - i, "parameter");
  }

  lemma StepValueEnds(p: Parser, value: string, c: Closing)
    requires p.Valid() && p.phase == ParamValue && p.paramName.Some?
    requires ValueOk(value) && c.Valid()
    requires At(p.raw, p.pos, value + CloseTag("parameter", c))
    ensures var arg := Arg(p.paramName.value, value, p.paramIsString);
            Step(p) == Go(p.(current := p.current.(args := p.current.args + [arg]),
                             paramName := None, pos := p.pos + |value + CloseTag("parameter", c)|,
                             phase := Structural))
  {
    hide FindClose, CloseTagEnd;
    ValueEnds(p.raw, p.pos, value, c);
    AtSplit(p.raw, p.pos, value, CloseTag("parameter", c));
    assert p.raw[p.pos..p.pos + |value|] == value;
  }

  // ---------- whole stanzas ----------

  /** The parser after one printed argument, apart from its internal value mark. */
  ghost predicate SameBut(p: Parser, q: Parser, args: seq<Arg>, pos: nat) {
    && q.phase == Structural && q.raw == p.raw && q.calls == p.calls && q.pos == pos
    && q.current == OpenCall(p.current.name, p.current.args + args)
  }

  lemma ParseArg(p: Parser, a: ArgText) returns (q: Parser)
    requires p.Valid() && p.phase == Structural && ArgOk(a)
    requires At(p.raw, p.pos, PrintArg(a))
    ensures q.Valid() && Parse(p) == Parse(q)
    ensures SameBut(p, q, [a.arg], p.pos + |PrintArg(a)|)
  {
    hide Step, ValueOk, NameOk, Spaces, At, ParamTag, CloseTag;
    var flag := Flag(a.arg.isString);
    var open := a.gap + ParamTag(a.arg.name, flag);
    var value := a.arg.value + CloseTag("parameter", a.closing);
    assert PrintArg(a) == open + value;
    AtSplit(p.raw, p.pos, open, value);
    StepParam(p, a.gap, a.arg.name, flag);
    var p1 := Step(p).p;
    StepValueEnds(p1, a.arg.value, a.closing);
    q := Step(p1).p;
  }

  lemma {:induction false} ParseArgs(p: Parser, args: seq<ArgText>) returns (q: Parser)
    requires p.Valid() && p.phase == Structural && forall a :: a in args ==> ArgOk(a)
    requires At(p.raw, p.pos, PrintArgs(args))
    ensures q.Valid() && Parse(p) == Parse(q)
    ensures SameBut(p, q, Args(args), p.pos + |PrintArgs(args)|)
    decreases |args|
  {
    hide Parse, ArgOk, PrintArg;
    if args == [] {
      q := p;
    } else {
      AtSplit(p.raw, p.pos, PrintArg(args[0]), PrintArgs(args[1..]));
      var p1 := ParseArg(p, args[0]);
      q := ParseArgs(p1, args[1..]);
      assert Args(args) == [args[0].arg] + Args(args[1..]);
    }
  }

  lemma ParseCall(p: Parser, c: CallText) returns (q: Parser)
    requires p.Valid() && p.phase == Structural && CallOk(c)
    requires At(p.raw, p.pos, PrintCall(c))
    ensures q.Valid() && Parse(p) == Parse(q)
    ensures q.phase == Structural && q.raw == p.raw && q.pos == p.pos + |PrintCall(c)| && q.current == NoCall
    ensures q.calls == p.calls + [Call(c.name, Args(c.args))]
  {
    hide Step, ArgOk, PrintArgs;
    var open, args, close := c.gap + InvokeTag(c.name), PrintArgs(c.args), c.closeGap + CloseTag("invoke", c.closing);
    AtSplit(p.raw, p.pos, open + args, close);
    AtSplit(p.raw, p.pos, open, args);
    StepInvoke(p, c.gap, c.name);
    var p1 := Step(p).p;
    var p2 := ParseArgs(p1, c.args);
    assert [] + Args(c.args) == Args(c.args);
    StepCloseCall(p2, c.closeGap, c.closing);
    q := Step(p2).p;
  }

  lemma {:induction false} ParseCalls(p: Parser, calls: seq<CallText>) returns (q: Parser)
    requires p.Valid() && p.phase == Structural && p.current == NoCall && forall c :: c in calls ==> CallOk(c)
    requires At(p.raw, p.pos, PrintCalls(calls))
    ensures q.Valid() && Parse(p) == Parse(q)
    ensures q.phase == Structural && q.raw == p.raw && q.pos == p.pos + |PrintCalls(calls)| && q.current == NoCall
    ensures q.calls == p.calls + Calls(calls)
    decreases |calls|
  {
    hide Parse, CallOk, PrintCall;
    if calls == [] {
      q := p;
    } else {
      AtSplit(p.raw, p.pos, PrintCall(calls[0]), PrintCalls(calls[1..]));
      var p1 := ParseCall(p, calls[0]);
      q := ParseCalls(p1, calls[1..]);
      assert Calls(calls) == [Call(calls[0].name, Args(calls[0].args))] + Calls(calls[1..]);
    }
  }

  /** The parser right after the opening marker, with a body and more waiting. */
  lemma BodyWaits(body: string, tail: string)
    ensures var p := Begin(Initial).Append(body + tail);
            && p.Valid() && p.phase == Structural && p.pos == |START| && p.current == NoCall && p.calls == []
            && At(p.raw, p.pos, body)
  {
    var p := Begin(Initial).Append(body + tail);
    assert p.raw == START + (body + tail);
    StartsBehind(START, body, tail);
  }

  lemma StartsBehind(a: string, b: string, c: string)
    ensures At(a + (b + c), |a|, b)
  {
    assert (a + (b + c))[|a|..|a| + |b|] == b;
  }

  /** Round trip: parsing a printed stanza, in any accepted spelling of its closing tags,
      ends done with exactly the printed calls, and stops right after the stanza. */
  lemma {:induction false} RoundTrip(d: Stanza, tail: string)
    requires StanzaOk(d)
    ensures var q := Parse(Begin(Initial).Append(Print(d) + tail));
            q.phase == Done && q.calls == Calls(d.calls) && q.pos == |START| + |Print(d)|
  {
    hide Step, CallOk, At, PrintCalls, CloseTag, Begin;
    BodyWaits(Print(d), tail);
    var p := Begin(Initial).Append(Print(d) + tail);
    AtSplit(p.raw, p.pos, PrintCalls(d.calls), d.closeGap + CloseTag("tool_calls", d.closing));
    var p1 := ParseCalls(p, d.calls);
    StepCloseAll(p1, d.closeGap, d.closing);
    assert Calls(d.calls) == [] + Calls(d.calls);
  }
}
