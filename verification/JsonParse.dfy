/** The recursive-descent JSON reader: its grammar as functions of the text, then the reader as
    written.  Number conversion is the C library's and stays abstract. */
module JsonParse {
  import opened Options
  import opened Text

  datatype Value =
    | JNull
    | JBool(b: bool)
    | JNum(n: real)
    | JStr(s: string)
    | JArr(items: seq<Value>)
    | JObj(members: seq<(string, Value)>)

  /** strtod: the value read from the front of a text, and how many bytes it took. */
  type Strtod = f: string -> (real, nat) | forall t :: f(t).1 <= |t| witness (t: string) => (0.0, 0)

  predicate IsWs(c: char) {
    c == ' ' || '\t' <= c <= '\r'
  }

  function SkipWs(s: string, i: nat): (j: nat)
    requires i <= |s|
    ensures i <= j <= |s|
    ensures j < |s| ==> !IsWs(s[j])
    ensures forall k :: i <= k < j ==> IsWs(s[k])
    decreases |s| - i
  {
    if i < |s| && IsWs(s[i]) then SkipWs(s, i + 1) else i
  }

  predicate Is(s: string, i: nat, c: char) {
    i < |s| && s[i] == c
  }

  function Unescape(e: char): char {
    if e == 'n' then '\n' else if e == 't' then '\t' else if e == 'r' then '\r'
    else if e == 'b' then '\U{8}' else if e == 'f' then '\U{c}'
    else if e == 'u' then '?'
    else e
  }

  /** One character of a string body: what it stands for and where the next one starts. */
  function CharAt(s: string, i: nat): (r: (char, nat))
    requires i < |s|
    ensures i < r.1 <= |s|
  {
    if s[i] == '\\' && i + 1 < |s| then
      var next := if s[i + 1] != 'u' then i + 2 else if i + 6 <= |s| then i + 6 else |s|;
      (Unescape(s[i + 1]), next)
    else (s[i], i + 1)
  }

  /** Put `t` in front of what was read. */
  function Prepend<T>(t: seq<T>, r: Option<(seq<T>, nat)>): (q: Option<(seq<T>, nat)>)
    ensures q.Some? <==> r.Some?
    ensures r.Some? ==> q.value.1 == r.value.1
  {
    match r case None => None case Some((rest, k)) => Some((t + rest, k))
  }

  /** The rest of a string, up to and over its closing quote. */
  function BodyAt(s: string, i: nat): (r: Option<(string, nat)>)
    requires i <= |s|
    ensures r.Some? ==> i < r.value.1 <= |s|
    decreases |s| - i
  {
    if i == |s| then None
    else if s[i] == '"' then Some(([], i + 1))
    else
      var (c, next) := CharAt(s, i);
      Prepend([c], BodyAt(s, next))
  }

  function StringAt(s: string, i: nat): (r: Option<(string, nat)>)
    requires i <= |s|
    ensures r.Some? ==> i < r.value.1 <= |s|
  {
    if Is(s, i, '"') then BodyAt(s, i + 1) else None
  }

  predicate StartsNumber(c: char) {
    c == '-' || '0' <= c <= '9'
  }

  function LiteralAt(s: string, i: nat, num: Strtod): (r: Option<(Value, nat)>)
    requires i < |s|
    ensures r.Some? ==> i < r.value.1 <= |s|
  {
    if s[i] == 't' || s[i] == 'f' then
      if At(s, i, "true") then Some((JBool(true), i + 4))
      else if At(s, i, "false") then Some((JBool(false), i + 5))
      else None
    else if s[i] == 'n' then if At(s, i, "null") then Some((JNull, i + 4)) else None
    else if StartsNumber(s[i]) then
      var (n, len) := num(s[i..]);
      if len == 0 then None else Some((JNum(n), i + len))
    else None
  }

  function ValueAt(s: string, start: nat, num: Strtod): (r: Option<(Value, nat)>)
    requires start <= |s|
    ensures r.Some? ==> start < r.value.1 <= |s|
    decreases |s| - start, 2
  {
    var i := SkipWs(s, start);
    if i == |s| then None
    else if s[i] == '{' then
      var j := SkipWs(s, i + 1);
      if Is(s, j, '}') then Some((JObj([]), j + 1))
      else match MembersAt(s, i + 1, num)
        case None => None
        case Some((ms, k)) => Some((JObj(ms), k))
    else if s[i] == '[' then
      var j := SkipWs(s, i + 1);
      if Is(s, j, ']') then Some((JArr([]), j + 1))
      else match ItemsAt(s, i + 1, num)
        case None => None
        case Some((vs, k)) => Some((JArr(vs), k))
    else if s[i] == '"' then
      match StringAt(s, i)
      case None => None
      case Some((t, k)) => Some((JStr(t), k))
    else LiteralAt(s, i, num)
  }

  /** Array items up to and over the closing bracket. */
  function ItemsAt(s: string, i: nat, num: Strtod): (r: Option<(seq<Value>, nat)>)
    requires i <= |s|
    ensures r.Some? ==> i < r.value.1 <= |s|
    decreases |s| - i, 3
  {
    match ValueAt(s, i, num)
    case None => None
    case Some((v, k)) => ItemAfter(s, v, k, num)
  }

  /** What follows an item that has been read. */
  function ItemAfter(s: string, v: Value, k: nat, num: Strtod): (r: Option<(seq<Value>, nat)>)
    requires k <= |s|
    ensures r.Some? ==> k < r.value.1 <= |s|
    decreases |s| - k, 4
  {
    var j := SkipWs(s, k);
    if Is(s, j, ',') then Prepend([v], ItemsAt(s, j + 1, num))
    else if Is(s, j, ']') then Some(([v], j + 1))
    else None
  }

  /** One key with its colon: the key and where its value starts. */
  function KeyAt(s: string, start: nat): (r: Option<(string, nat)>)
    requires start <= |s|
    ensures r.Some? ==> start < r.value.1 <= |s|
  {
    match StringAt(s, SkipWs(s, start))
    case None => None
    case Some((key, k)) =>
      var j := SkipWs(s, k);
      if Is(s, j, ':') then Some((key, j + 1)) else None
  }

  /** Object members up to and over the closing brace. */
  function MembersAt(s: string, i: nat, num: Strtod): (r: Option<(seq<(string, Value)>, nat)>)
    requires i <= |s|
    ensures r.Some? ==> i < r.value.1 <= |s|
    decreases |s| - i, 3
  {
    match KeyAt(s, i)
    case None => None
    case Some((key, k)) => MemberAt(s, key, k, num)
  }

  /** The value of a member whose key has been read, and the members after it. */
  function MemberAt(s: string, key: string, k: nat, num: Strtod): (r: Option<(seq<(string, Value)>, nat)>)
    requires k <= |s|
    ensures r.Some? ==> k < r.value.1 <= |s|
    decreases |s| - k, 4
  {
    match ValueAt(s, k, num)
    case None => None
    case Some((v, m)) => MemberAfter(s, key, v, m, num)
  }

  /** What follows a member that has been read. */
  function MemberAfter(s: string, key: string, v: Value, m: nat, num: Strtod): (r: Option<(seq<(string, Value)>, nat)>)
    requires m <= |s|
    ensures r.Some? ==> m < r.value.1 <= |s|
    decreases |s| - m, 4
  {
    var j := SkipWs(s, m);
    if Is(s, j, ',') then Prepend([(key, v)], MembersAt(s, j + 1, num))
    else if Is(s, j, '}') then Some(([(key, v)], j + 1))
    else None
  }
}

/** The reader as written: a cursor advanced in place, with a failure flag. */
module JsonCursor {
  import opened Options
  import opened Text
  import opened JsonParse

  class Cursor {
    const s: string
    var p: nat
    var ok: bool

    ghost predicate Valid()
      reads this
    {
      p <= |s|
    }

    constructor (s: string)
      ensures Valid() && this.s == s && p == 0 && ok
    {
      this.s, p, ok := s, 0, true;
    }

    method SkipSpace()
      requires Valid()
      modifies `p
      ensures p == SkipWs(s, old(p))
    {
      while p < |s| && IsWs(s[p])
        invariant old(p) <= p <= |s|
        invariant SkipWs(s, p) == SkipWs(s, old(p))
      {
        p := p + 1;
      }
    }

    /** One character of a string body, escape included. */
    method ReadChar() returns (c: char)
      requires Valid() && p < |s|
      modifies `p
      ensures Valid() && (c, p) == CharAt(s, old(p))
    {
      c := s[p];
      p := p + 1;
      if c == '\\' && p < |s| {
        var e := s[p];
        p := p + 1;
        if e == 'u' {
          var i := 0;
          while i < 4 && p < |s|
            invariant 0 <= i <= 4
            invariant p == if old(p) + 2 + i <= |s| then old(p) + 2 + i else |s|
          {
            p := p + 1;
            i := i + 1;
          }
        }
        c := Unescape(e);
      }
    }

    method ReadString() returns (t: string)
      requires Valid() && ok
      modifies this
      ensures Valid() && old(p) <= p
      ensures StringAt(s, old(p)) == if ok then Some((t, p)) else None
    {
      hide CharAt, Prepend;
      t := [];
      if p >= |s| || s[p] != '"' {
        ok := false;
        return;
      }
      p := p + 1;
      ghost var start := p;
      NoPrefix(BodyAt(s, start));
      while p < |s| && s[p] != '"'
        invariant start <= p <= |s| && ok
        invariant BodyAt(s, start) == Prepend(t, BodyAt(s, p))
        decreases |s| - p
      {
        ghost var at := p;
        var c := ReadChar();
        PrependTwice(t, [c], BodyAt(s, p));
        t := t + [c];
      }
      if p >= |s| {
        ok := false;
        return;
      }
      PrependNothing(t, p + 1);
      p := p + 1;
    }

    method ReadLiteral(num: Strtod) returns (v: Value)
      requires Valid() && ok && p < |s|
      modifies this
      ensures Valid() && old(p) <= p
      ensures LiteralAt(s, old(p), num) == if ok then Some((v, p)) else None
    {
      v := JNull;
      Spelled(s, p);
      hide At;
      var c := s[p];
      if c == 't' || c == 'f' {
        if At(s, p, "true") {
          p, v := p + 4, JBool(true);
        } else if At(s, p, "false") {
          p, v := p + 5, JBool(false);
        } else {
          ok := false;
        }
      } else if c == 'n' {
        if At(s, p, "null") { p := p + 4; } else { ok := false; }
      } else if c == '-' || '0' <= c <= '9' {
        var (n, len) := num(s[p..]);
        if len == 0 {
          ok := false;
        } else {
          p, v := p + len, JNum(n);
        }
      } else {
        ok := false;
      }
    }

    method ReadValue(num: Strtod) returns (v: Value)
      requires Valid() && ok
      modifies this
      ensures Valid() && old(p) <= p
      ensures ValueAt(s, old(p), num) == if ok then Some((v, p)) else None
      decreases |s| - p, 2
    {
      hide StringAt, LiteralAt;
      v := JNull;
      SkipSpace();
      if p >= |s| {
        ok := false;
        return;
      }
      var c := s[p];
      if c == '{' {
        v := ReadObject(num);
      } else if c == '[' {
        v := ReadArray(num);
      } else if c == '"' {
        var t := ReadString();
        if ok { v := JStr(t); }
      } else {
        v := ReadLiteral(num);
      }
    }

    method ReadItem(num: Strtod) returns (item: Value)
      requires Valid() && ok
      modifies this
      ensures Valid() && old(p) <= p && (ok ==> old(p) < p)
      ensures ItemsAt(s, old(p), num) == if ok then ItemAfter(s, item, p, num) else None
      decreases |s| - p, 3
    {
      hide ValueAt, ItemsAt, ItemAfter;
      ItemsStep(s, p, num);
      item := ReadValue(num);
    }

    method ReadArray(num: Strtod) returns (v: Value)
      requires Valid() && ok && Is(s, p, '[')
      modifies this
      ensures Valid() && old(p) <= p
      ensures (var j := SkipWs(s, old(p) + 1);
               if Is(s, j, ']') then Some((JArr([]), j + 1))
               else match ItemsAt(s, old(p) + 1, num) { case None => None case Some((vs, k)) => Some((JArr(vs), k)) })
              == if ok then Some((v, p)) else None
      decreases |s| - p, 1
    {
      hide ValueAt, ItemsAt, ItemAfter, Prepend;
      v := JArr([]);
      p := p + 1;
      ghost var first := p;
      SkipSpace();
      if p < |s| && s[p] == ']' {
        p := p + 1;
        return;
      }
      SameItems(s, first, p, num);
      NoPrefix(ItemsAt(s, p, num));
      ghost var start := p;
      while true
        invariant start <= p <= |s| && ok && v.JArr?
        invariant ItemsAt(s, first, num) == Prepend(v.items, ItemsAt(s, p, num))
        decreases |s| - p
      {
        var item := ReadItem(num);
        if !ok { return; }
        ItemAfterCases(s, item, p, num);
        ghost var was := v.items;
        v := JArr(v.items + [item]);
        SkipSpace();
        if p < |s| && s[p] == ',' {
          p := p + 1;
          PrependTwice(was, [item], ItemsAt(s, p, num));
          continue;
        }
        if p < |s| && s[p] == ']' {
          p := p + 1;
          PrependOne(was, item, p);
          return;
        }
        ok := false;
        return;
      }
    }

    method ReadKey() returns (key: string)
      requires Valid() && ok
      modifies this
      ensures Valid() && old(p) <= p
      ensures KeyAt(s, old(p)) == if ok then Some((key, p)) else None
    {
      hide StringAt;
      SkipSpace();
      key := ReadString();
      if !ok { return; }
      SkipSpace();
      if p >= |s| || s[p] != ':' {
        ok := false;
        return;
      }
      p := p + 1;
    }

    method ReadMember(num: Strtod) returns (key: string, val: Value)
      requires Valid() && ok
      modifies this
      ensures Valid() && old(p) <= p && (ok ==> old(p) < p)
      ensures MembersAt(s, old(p), num) == if ok then MemberAfter(s, key, val, p, num) else None
      decreases |s| - p, 3
    {
      hide ValueAt, KeyAt, MembersAt, MemberAt, MemberAfter;
      val := JNull;
      key := ReadKey();
      MembersStep(s, old(p), num);
      if !ok { return; }
      ghost var at := p;
      val := ReadValue(num);
      MemberStep(s, key, at, num);
    }

    method ReadObject(num: Strtod) returns (v: Value)
      requires Valid() && ok && Is(s, p, '{')
      modifies this
      ensures Valid() && old(p) <= p
      ensures (var j := SkipWs(s, old(p) + 1);
               if Is(s, j, '}') then Some((JObj([]), j + 1))
               else match MembersAt(s, old(p) + 1, num) { case None => None case Some((ms, k)) => Some((JObj(ms), k)) })
              == if ok then Some((v, p)) else None
      decreases |s| - p, 1
    {
      hide ValueAt, MembersAt, MemberAfter, Prepend;
      v := JObj([]);
      p := p + 1;
      ghost var first := p;
      SkipSpace();
      if p < |s| && s[p] == '}' {
        p := p + 1;
        return;
      }
      SameMembers(s, first, p, num);
      NoPrefix(MembersAt(s, p, num));
      ghost var start := p;
      while true
        invariant start <= p <= |s| && ok && v.JObj?
        invariant MembersAt(s, first, num) == Prepend(v.members, MembersAt(s, p, num))
        decreases |s| - p
      {
        var key, val := ReadMember(num);
        if !ok { return; }
        MemberAfterCases(s, key, val, p, num);
        ghost var was := v.members;
        v := JObj(v.members + [(key, val)]);
        SkipSpace();
        if p < |s| && s[p] == ',' {
          p := p + 1;
          PrependTwice(was, [(key, val)], MembersAt(s, p, num));
          continue;
        }
        if p < |s| && s[p] == '}' {
          p := p + 1;
          PrependOne(was, (key, val), p);
          return;
        }
        ok := false;
        return;
      }
    }
  }

  lemma Spelled(s: string, i: nat)
    ensures At(s, i, "true") || At(s, i, "null") ==> i + 4 <= |s|
    ensures At(s, i, "false") ==> i + 5 <= |s|
  {
  }

  lemma NoPrefix<T>(r: Option<(seq<T>, nat)>)
    ensures r == Prepend([], r)
  {
    assert r.Some? ==> [] + r.value.0 == r.value.0;
  }

  lemma PrependTwice<T>(a: seq<T>, b: seq<T>, r: Option<(seq<T>, nat)>)
    ensures Prepend(a, Prepend(b, r)) == Prepend(a + b, r)
  {
    assert r.Some? ==> a + (b + r.value.0) == a + b + r.value.0;
  }

  lemma PrependNothing<T>(a: seq<T>, k: nat)
    ensures Prepend(a, Some(([], k))) == Some((a, k))
  {
    assert a + [] == a;
  }

  lemma PrependOne<T>(a: seq<T>, x: T, k: nat)
    ensures Prepend(a, Some(([x], k))) == Some((a + [x], k))
  {
  }

  lemma ItemsStep(s: string, i: nat, num: Strtod)
    requires i <= |s|
    ensures ValueAt(s, i, num).None? ==> ItemsAt(s, i, num).None?
    ensures ValueAt(s, i, num).Some? ==>
              ItemsAt(s, i, num) == ItemAfter(s, ValueAt(s, i, num).value.0, ValueAt(s, i, num).value.1, num)
  {
    hide ValueAt, ItemAfter;
  }

  lemma ItemAfterCases(s: string, v: Value, k: nat, num: Strtod)
    requires k <= |s|
    ensures var j := SkipWs(s, k);
            && (Is(s, j, ',') ==> ItemAfter(s, v, k, num) == Prepend([v], ItemsAt(s, j + 1, num)))
            && (Is(s, j, ']') ==> ItemAfter(s, v, k, num) == Some(([v], j + 1)))
            && (!Is(s, j, ',') && !Is(s, j, ']') ==> ItemAfter(s, v, k, num).None?)
  {
    hide ItemsAt;
  }

  lemma MemberAfterCases(s: string, key: string, v: Value, k: nat, num: Strtod)
    requires k <= |s|
    ensures var j := SkipWs(s, k);
            && (Is(s, j, ',') ==> MemberAfter(s, key, v, k, num) == Prepend([(key, v)], MembersAt(s, j + 1, num)))
            && (Is(s, j, '}') ==> MemberAfter(s, key, v, k, num) == Some(([(key, v)], j + 1)))
            && (!Is(s, j, ',') && !Is(s, j, '}') ==> MemberAfter(s, key, v, k, num).None?)
  {
    hide MembersAt;
  }

  lemma MembersStep(s: string, i: nat, num: Strtod)
    requires i <= |s|
    ensures KeyAt(s, i).None? ==> MembersAt(s, i, num).None?
    ensures KeyAt(s, i).Some? ==>
              MembersAt(s, i, num) == MemberAt(s, KeyAt(s, i).value.0, KeyAt(s, i).value.1, num)
  {
    hide KeyAt, MemberAt;
  }

  lemma MemberStep(s: string, key: string, k: nat, num: Strtod)
    requires k <= |s|
    ensures ValueAt(s, k, num).None? ==> MemberAt(s, key, k, num).None?
    ensures ValueAt(s, k, num).Some? ==>
              MemberAt(s, key, k, num)
              == MemberAfter(s, key, ValueAt(s, k, num).value.0, ValueAt(s, k, num).value.1, num)
  {
    hide ValueAt, MemberAfter;
  }

  lemma SkipTwice(s: string, i: nat, j: nat)
    requires i <= |s| && j == SkipWs(s, i)
    ensures SkipWs(s, j) == j
  {
  }

  lemma SameValue(s: string, i: nat, j: nat, num: Strtod)
    requires i <= |s| && j == SkipWs(s, i) && SkipWs(s, j) == j
    ensures ValueAt(s, i, num) == ValueAt(s, j, num)
  {
    hide StringAt, LiteralAt, ItemsAt, MembersAt, SkipWs;
  }

  /** Space in front of the first item or member does not matter. */
  lemma SameItems(s: string, i: nat, j: nat, num: Strtod)
    requires i <= |s| && j == SkipWs(s, i)
    ensures ItemsAt(s, i, num) == ItemsAt(s, j, num)
  {
    SkipTwice(s, i, j);
    SameValue(s, i, j, num);
    hide ValueAt;
    ItemsStep(s, i, num);
    ItemsStep(s, j, num);
  }

  lemma SameMembers(s: string, i: nat, j: nat, num: Strtod)
    requires i <= |s| && j == SkipWs(s, i)
    ensures MembersAt(s, i, num) == MembersAt(s, j, num)
  {
    hide StringAt, MemberAt;
    SkipTwice(s, i, j);
    assert KeyAt(s, i) == KeyAt(s, j);
  }
}
