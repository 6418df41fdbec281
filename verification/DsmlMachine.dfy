/** The parser as the agent runs it: one struct updated in place, a resumable parse loop and
    a byte feeder, each proved equal to the functions of module Dsml. */
module DsmlMachine {
  import opened Basics
  import opened Options
  import opened Text
  import opened Dsml
  import opened DsmlResume

  lemma CloseTagHasStart(s: string, k: nat, name: string)
    requires k <= |s| && CloseTagEnd(s, k, name).Some?
    ensures At(s, k, CLOSE_START)
  {
    hide SkipSpace;
    var prefix := CLOSE_START + name;
    assert s[k..k + |CLOSE_START|] == s[k..k + |prefix|][..|CLOSE_START|];
  }

  /** The search hops from one "</" marker to the next. */
  method FindCloseTag(s: string, i: nat, name: string) returns (r: Option<(nat, nat)>)
    requires i <= |s|
    ensures r == FindClose(s, i, name)
  {
    hide CloseTagEnd;
    var p := i;
    while true
      invariant i <= p <= |s|
      invariant forall k :: i <= k < p ==> CloseTagEnd(s, k, name).None?
      decreases |s| - p
    {
      var f := FindSub(s, p, CLOSE_START);
      forall k | p <= k <= |s| && !At(s, k, CLOSE_START)
        ensures CloseTagEnd(s, k, name).None?
      {
        if CloseTagEnd(s, k, name).Some? { CloseTagHasStart(s, k, name); }
      }
      if f.None? {
        return None;
      }
      var after := CloseTagEnd(s, f.value, name);
      if after.Some? {
        FindCloseUnique(s, i, name, f.value, after.value);
        return Some((f.value, after.value));
      }
      p := f.value + 1;
    }
  }

  class StreamParser {
    var phase: Phase
    var searchTail: string
    var raw: string
    var pos: nat
    var current: OpenCall
    var paramName: Option<string>
    var paramIsString: bool
    var valueStart: nat
    var calls: seq<Call>
    var error: string

    /** The abstract value of the struct. */
    ghost function St(): Parser
      reads this
    {
      Parser(phase, searchTail, raw, pos, current, paramName, paramIsString, valueStart, calls, error)
    }

    constructor ()
      ensures St() == Initial && St().Valid()
    {
      phase, searchTail, raw, pos := Search, [], [], 0;
      current, paramName, paramIsString := NoCall, None, false;
      valueStart, calls, error := 0, [], [];
    }

    method Reset()
      modifies this
      ensures St() == Initial && St().Valid()
    {
      phase, searchTail, raw, pos := Search, [], [], 0;
      current, paramName, paramIsString := NoCall, None, false;
      valueStart, calls, error := 0, [], [];
    }

    method PushCurrent()
      modifies `calls, `current
      ensures calls == Push(old(calls), old(current)) && current == Cleared(old(current))
    {
      if current.name.Some? {
        calls := calls + [Call(current.name.value, current.args)];
        current := NoCall;
      }
    }

    method SkipSpaces()
      requires St().Valid() && phase == Structural
      modifies `pos
      ensures pos == SkipSpace(raw, old(pos))
    {
      while pos < |raw| && IsSpace(raw[pos])
        invariant old(pos) <= pos <= |raw|
        invariant forall k :: old(pos) <= k < pos ==> IsSpace(raw[k])
      {
        pos := pos + 1;
      }
      SkipSpaceUnique(raw, old(pos), pos);
    }

    method ParseValue() returns (go: bool)
      requires St().Valid() && phase == ParamValue
      modifies this
      ensures StepValue(old(St())) == if go then Go(St()) else Stop(St())
    {
      hide FindClose, CloseTagEnd;
      var end := FindCloseTag(raw, valueStart, "parameter");
      if end.None? { return false; }
      var arg := Arg(if paramName.Some? then paramName.value else "", raw[valueStart..end.value.0], paramIsString);
      current := current.(args := current.args + [arg]);
      paramName := None;
      pos := end.value.1;
      phase := Structural;
      return true;
    }

    method ParseOpenTag(tag: string) returns (go: bool)
      modifies this
      ensures OpenTag(old(St()), tag) == if go then Go(St()) else Stop(St())
    {
      hide ParseAttr;
      if At(tag, 0, INVOKE_START) {
        current := OpenCall(ParseAttr(tag, "name"), []);
        if current.name.None? {
          phase, error := Error, "tool invoke without name";
          return false;
        }
        pos := pos + |tag|;
      } else if At(tag, 0, PARAM_START) {
        paramName := ParseAttr(tag, "name");
        var isString := ParseAttr(tag, "string");
        paramIsString := isString.Some? && isString.value == "true";
        if paramName.None? {
          phase, error := Error, "tool parameter without name";
          return false;
        }
        pos := pos + |tag|;
        valueStart := pos;
        phase := ParamValue;
      } else {
        error := "unexpected DSML tag: " + tag[..Min(|tag|, 80)];
        phase := Error;
        return false;
      }
      return true;
    }

    method ParseStructural() returns (go: bool)
      requires St().Valid() && phase == Structural
      modifies this
      ensures StepStructural(old(St())) == if go then Go(St()) else Stop(St())
    {
      hide CloseTagEnd, OpenTag, SkipSpace, FindChar;
      SkipSpaces();
      if pos >= |raw| { return false; }
      var close := CloseTagEnd(raw, pos, "tool_calls");
      if close.Some? {
        PushCurrent();
        pos := close.value;
        phase := Done;
        return false;
      }
      close := CloseTagEnd(raw, pos, "invoke");
      if close.Some? {
        PushCurrent();
        pos := close.value;
        return true;
      }
      var tagEnd := FindChar(raw, pos, '>');
      if tagEnd.None? { return false; }
      go := ParseOpenTag(raw[pos..tagEnd.value + 1]);
    }

    /** Parse as much of the accumulated buffer as possible. */
    method ParseBuffer()
      requires St().Valid()
      modifies this
      ensures St() == Parse(old(St())) && St().Valid()
    {
      hide StepValue, StepStructural;
      var go := true;
      while go && (phase == Structural || phase == ParamValue)
        invariant St().Valid() && (go ==> raw == old(raw))
        invariant if go then Parse(St()) == Parse(old(St())) else St() == Parse(old(St()))
        decreases go, |raw| - pos
      {
        assert Step(St()).p.Valid();
        if phase == ParamValue {
          go := ParseValue();
        } else {
          go := ParseStructural();
        }
      }
    }

    /** Seed the parser with the canonical marker, whatever form was detected. */
    method Start()
      modifies this
      ensures St() == Begin(old(St())) && St().Valid()
    {
      phase, searchTail := Structural, [];
      raw := raw + START;
      pos := |START|;
    }

    method FeedOne(c: char)
      requires St().Valid()
      modifies this
      ensures St() == FeedByte(old(St()), c) && St().Valid()
    {
      hide Parse, StepValue, StepStructural;
      if phase == Search {
        if |searchTail| == SEARCH_TAIL_SIZE { searchTail := searchTail[1..]; }
        searchTail := searchTail + [c];
        if EndsWith(searchTail, START) { Start(); }
      } else {
        raw := raw + [c];
        ParseBuffer();
      }
    }

    /** Feed a chunk; a finished parser ignores it. */
    method FeedChunk(s: string)
      requires St().Valid()
      modifies this
      ensures St() == Feed(old(St()), s) && St().Valid()
    {
      hide FeedByte;
      if phase == Done || phase == Error { return; }
      var i := 0;
      while i < |s|
        invariant 0 <= i <= |s| && St().Valid()
        invariant FeedLoop(St(), s[i..]) == FeedLoop(old(St()), s)
      {
        assert s[i..][1..] == s[i + 1..];
        FeedOne(s[i]);
        i := i + 1;
      }
    }
  }
}
