/** Which texts the JSON reader accepts, by a description of the text alone: where every token of
    a value stands, with the white space between them, and what it denotes. */
module JsonAccept {
  import opened Options
  import opened Text
  import opened JsonParse
  import JsonCursor

  // One character of a string: itself, a short escape, or \u with any four bytes.
  datatype CharText = Plain(c: char) | Escaped(e: char) | Unicode(digits: string)

  // A value as it stands in a text, with the white space in front of it.
  datatype Doc =
    | NullDoc(gap: string)
    | BoolDoc(gap: string, b: bool)
    | NumDoc(gap: string, n: real, len: nat)
    | StrDoc(gap: string, chars: seq<CharText>)
    | ArrDoc(gap: string, inner: string, items: seq<ItemDoc>)
    | ObjDoc(gap: string, inner: string, members: seq<MemberDoc>)

  // An item or a member, with the white space behind it; `inner` is that of empty brackets.
  datatype ItemDoc = ItemDoc(value: Doc, after: string)
  datatype MemberDoc = MemberDoc(gap: string, key: seq<CharText>, colonGap: string, value: Doc, after: string)

  ghost predicate AllWs(t: string) {
    forall i :: 0 <= i < |t| ==> IsWs(t[i])
  }

  // ---------- strings ----------

  predicate CharOk(c: CharText) {
    match c
    case Plain(x) => x != '"' && x != '\\'
    case Escaped(e) => e != 'u'
    case Unicode(digits) => |digits| == 4
  }

  function SpellChar(c: CharText): string {
    match c
    case Plain(x) => [x]
    case Escaped(e) => ['\\', e]
    case Unicode(digits) => "\\u" + digits
  }

  function CharOf(c: CharText): char {
    match c
    case Plain(x) => x
    case Unicode(_) => '?'
    case Escaped(e) =>
      if e == 'n' then '\n' else if e == 't' then '\t' else if e == 'r' then '\r'
      else if e == 'b' then '\U{8}' else if e == 'f' then '\U{c}' else e
  }

  function SpellChars(cs: seq<CharText>): string {
    if cs == [] then "" else SpellChar(cs[0]) + SpellChars(cs[1..])
  }

  function TextOf(cs: seq<CharText>): string {
    seq(|cs|, i requires 0 <= i < |cs| => CharOf(cs[i]))
  }

  predicate CharsOk(cs: seq<CharText>) {
    forall i :: 0 <= i < |cs| ==> CharOk(cs[i])
  }

  function Quoted(cs: seq<CharText>): string {
    "\"" + (SpellChars(cs) + "\"")
  }

  lemma CharAtReads(s: string, i: nat, c: CharText)
    requires CharOk(c) && At(s, i, SpellChar(c))
    ensures i < |s| && s[i] != '"' && CharAt(s, i) == (CharOf(c), i + |SpellChar(c)|)
  {
    AtChars(s, i, SpellChar(c));
    AtInside(s, i, SpellChar(c));
  }

  lemma {:induction false} CharsRead(s: string, i: nat, cs: seq<CharText>)
    requires CharsOk(cs) && At(s, i, SpellChars(cs) + "\"")
    ensures i <= |s| && BodyAt(s, i) == Some((TextOf(cs), i + |SpellChars(cs)| + 1))
    decreases |cs|
  {
    hide CharAt, SpellChar, At;
    AtInside(s, i, SpellChars(cs) + "\"");
    AtSplit(s, i, SpellChars(cs), "\"");
    AtChars(s, i + |SpellChars(cs)|, "\"");
    if cs == [] {
      assert TextOf(cs) == [];
    } else {
      var rest := SpellChars(cs[1..]);
      AtSplit(s, i, SpellChar(cs[0]), rest + "\"");
      assert SpellChar(cs[0]) + rest + "\"" == SpellChar(cs[0]) + (rest + "\"");
      CharAtReads(s, i, cs[0]);
      CharsRead(s, i + |SpellChar(cs[0])|, cs[1..]);
      assert BodyAt(s, i) == Prepend([CharOf(cs[0])], BodyAt(s, i + |SpellChar(cs[0])|));
      assert TextOf(cs) == [CharOf(cs[0])] + TextOf(cs[1..]);
    }
  }

  /** A character that is followed by the rest of a string is spelled as one. */
  lemma CharTaken(s: string, i: nat) returns (c: CharText)
    requires i < |s| && s[i] != '"' && CharAt(s, i).1 < |s|
    ensures CharOk(c) && At(s, i, SpellChar(c)) && CharAt(s, i) == (CharOf(c), i + |SpellChar(c)|)
  {
    var next := CharAt(s, i).1;
    c := if s[i] != '\\' then Plain(s[i])
         else if s[i + 1] != 'u' then Escaped(s[i + 1])
         else Unicode(s[i + 2..i + 6]);
    assert s[i..next] == SpellChar(c);
  }

  lemma {:induction false} CharsTaken(s: string, i: nat) returns (cs: seq<CharText>)
    requires i <= |s| && BodyAt(s, i).Some?
    ensures CharsOk(cs) && At(s, i, SpellChars(cs) + "\"")
    ensures BodyAt(s, i) == Some((TextOf(cs), i + |SpellChars(cs)| + 1))
    decreases |s| - i
  {
    hide CharAt, SpellChar, CharOf;
    if s[i] == '"' {
      cs := [];
      assert s[i..i + 1] == "" + "\"";
    } else {
      var next := CharAt(s, i).1;
      var c := CharTaken(s, i);
      var rest := CharsTaken(s, next);
      cs := [c] + rest;
      assert cs[1..] == rest;
      AtSplit(s, i, SpellChar(c), SpellChars(rest) + "\"");
      assert SpellChar(c) + SpellChars(rest) + "\"" == SpellChar(c) + (SpellChars(rest) + "\"");
    }
    CharsRead(s, i, cs);
  }

  lemma {:induction false} StringExact(s: string, i: nat)
    requires i <= |s|
    ensures forall cs :: CharsOk(cs) && At(s, i, Quoted(cs)) ==> StringAt(s, i) == Some((TextOf(cs), i + |Quoted(cs)|))
    ensures StringAt(s, i).Some? ==> exists cs :: CharsOk(cs) && At(s, i, Quoted(cs))
  {
    hide BodyAt, At, SpellChars, TextOf, CharsOk;
    forall cs | CharsOk(cs) && At(s, i, Quoted(cs)) ensures StringAt(s, i) == Some((TextOf(cs), i + |Quoted(cs)|)) {
      AtSplit(s, i, "\"", SpellChars(cs) + "\"");
      AtChars(s, i, "\"");
      AtInside(s, i, "\"");
      CharsRead(s, i + 1, cs);
    }
    if StringAt(s, i).Some? {
      var cs := CharsTaken(s, i + 1);
      OneQuote(s, i);
      AtSplit(s, i, "\"", SpellChars(cs) + "\"");
      assert At(s, i, Quoted(cs));
    }
  }

  lemma OneQuote(s: string, i: nat)
    requires i < |s| && s[i] == '"'
    ensures At(s, i, "\"")
  {
    assert s[i..i + 1] == "\"";
  }

  // ---------- values ----------

  /** What a value denotes. */
  function Denoted(d: Doc): Value {
    match d
    case NullDoc(_) => JNull
    case BoolDoc(_, b) => JBool(b)
    case NumDoc(_, n, _) => JNum(n)
    case StrDoc(_, chars) => JStr(TextOf(chars))
    case ArrDoc(_, _, items) => JArr(seq(|items|, i requires 0 <= i < |items| => Denoted(items[i].value)))
    case ObjDoc(_, _, members) =>
      JObj(seq(|members|, i requires 0 <= i < |members| => (TextOf(members[i].key), Denoted(members[i].value))))
  }

  /** How many bytes it takes. */
  function Len(d: Doc): nat
    decreases d, 1, 0
  {
    |d.gap| +
    match d
    case NullDoc(_) => 4
    case BoolDoc(_, b) => if b then 4 else 5
    case NumDoc(_, _, len) => len
    case StrDoc(_, chars) => |Quoted(chars)|
    case ArrDoc(_, inner, items) => if items == [] then |inner| + 2 else 1 + LenItems(d, 0)
    case ObjDoc(_, inner, members) => if members == [] then |inner| + 2 else 1 + LenMembers(d, 0)
  }

  /** The items from the `k`-th on, each with its comma or the closing bracket. */
  function LenItems(d: Doc, k: nat): nat
    requires d.ArrDoc? && k <= |d.items|
    decreases d, 0, |d.items| - k
  {
    if k == |d.items| then 0 else Len(d.items[k].value) + |d.items[k].after| + 1 + LenItems(d, k + 1)
  }

  function LenMembers(d: Doc, k: nat): nat
    requires d.ObjDoc? && k <= |d.members|
    decreases d, 0, |d.members| - k
  {
    if k == |d.members| then 0
    else
      var m := d.members[k];
      |m.gap| + |Quoted(m.key)| + |m.colonGap| + 1 + Len(m.value) + |m.after| + 1 + LenMembers(d, k + 1)
  }

  /** The value stands at `i`: every token in its place, white space between them, and numbers as
      the C library reads them there. */
  ghost predicate Stands(s: string, i: nat, d: Doc, num: Strtod)
    decreases d, 1, 0
  {
    var j := i + |d.gap|;
    At(s, i, d.gap) && AllWs(d.gap) &&
    match d
    case NullDoc(_) => At(s, j, "null")
    case BoolDoc(_, b) => At(s, j, if b then "true" else "false")
    case NumDoc(_, n, len) => j < |s| && StartsNumber(s[j]) && len > 0 && num(s[j..]) == (n, len)
    case StrDoc(_, chars) => CharsOk(chars) && At(s, j, Quoted(chars))
    case ArrDoc(_, inner, items) =>
      if items == [] then At(s, j, "[" + (inner + "]")) && AllWs(inner)
      else At(s, j, "[") && StandItems(s, j + 1, d, 0, num)
    case ObjDoc(_, inner, members) =>
      if members == [] then At(s, j, "{" + (inner + "}")) && AllWs(inner)
      else At(s, j, "{") && StandMembers(s, j + 1, d, 0, num)
  }

  ghost predicate StandItems(s: string, i: nat, d: Doc, k: nat, num: Strtod)
    requires d.ArrDoc? && k < |d.items|
    decreases d, 0, |d.items| - k
  {
    var j := i + Len(d.items[k].value);
    var m := j + |d.items[k].after|;
    && Stands(s, i, d.items[k].value, num) && At(s, j, d.items[k].after) && AllWs(d.items[k].after)
    && (if k + 1 == |d.items| then At(s, m, "]") else At(s, m, ",") && StandItems(s, m + 1, d, k + 1, num))
  }

  ghost predicate StandMembers(s: string, i: nat, d: Doc, k: nat, num: Strtod)
    requires d.ObjDoc? && k < |d.members|
    decreases d, 0, |d.members| - k
  {
    var x := d.members[k];
    var a := i + |x.gap|;
    var b := a + |Quoted(x.key)|;
    var c := b + |x.colonGap|;
    var j := c + 1 + Len(x.value);
    var m := j + |x.after|;
    && At(s, i, x.gap) && AllWs(x.gap) && CharsOk(x.key) && At(s, a, Quoted(x.key))
    && At(s, b, x.colonGap) && AllWs(x.colonGap) && At(s, c, ":")
    && Stands(s, c + 1, x.value, num) && At(s, j, x.after) && AllWs(x.after)
    && (if k + 1 == |d.members| then At(s, m, "}") else At(s, m, ",") && StandMembers(s, m + 1, d, k + 1, num))
  }

  // ---------- what stands there is read ----------

  lemma WsSkipped(s: string, i: nat, gap: string)
    requires At(s, i, gap) && AllWs(gap) && i + |gap| < |s| && !IsWs(s[i + |gap|])
    ensures SkipWs(s, i) == i + |gap|
  {
    AtChars(s, i, gap);
  }

  /** Where a token starts no white space does, and it decides what is read. */
  lemma TokenAt(s: string, i: nat, token: string)
    requires token != "" && At(s, i, token)
    ensures i < |s| && s[i] == token[0]
  {
    AtChars(s, i, token);
  }

  lemma {:induction false} ValueReads(s: string, i: nat, d: Doc, num: Strtod)
    requires Stands(s, i, d, num)
    ensures i + Len(d) <= |s| && ValueAt(s, i, num) == Some((Denoted(d), i + Len(d)))
    decreases d, 1, 0
  {
    hide Stands, Len, ValueAt, Denoted;
    match d
    case ArrDoc(_, _, _) => ArrReads(s, i, d, num);
    case ObjDoc(_, _, _) => ObjReads(s, i, d, num);
    case _ => ScalarReads(s, i, d, num);
  }

  lemma {:induction false} ScalarReads(s: string, i: nat, d: Doc, num: Strtod)
    requires Stands(s, i, d, num) && !d.ArrDoc? && !d.ObjDoc?
    ensures i + Len(d) <= |s| && ValueAt(s, i, num) == Some((Denoted(d), i + Len(d)))
  {
    hide At, Quoted, StringAt, ItemsAt, MembersAt;
    var j := i + |d.gap|;
    match d
    case NullDoc(_) =>
      TokenAt(s, j, "null");
      WsSkipped(s, i, d.gap);
      AtInside(s, j, "null");
    case BoolDoc(_, b) =>
      var token := if b then "true" else "false";
      TokenAt(s, j, token);
      WsSkipped(s, i, d.gap);
      AtInside(s, j, token);
      if !b { NotAt(s, j, "true", 0); }
    case NumDoc(_, n, len) =>
      WsSkipped(s, i, d.gap);
      assert |s[j..]| == |s| - j;
    case StrDoc(_, chars) =>
      QuotedStarts(s, j, chars);
      WsSkipped(s, i, d.gap);
      StringExact(s, j);
    case _ =>
  }

  lemma QuotedStarts(s: string, i: nat, cs: seq<CharText>)
    requires At(s, i, Quoted(cs))
    ensures i < i + |Quoted(cs)| <= |s| && s[i] == '"'
  {
    AtInside(s, i, Quoted(cs));
    AtChars(s, i, Quoted(cs));
  }

  /** Empty brackets. */
  lemma EmptyReads(s: string, j: nat, open: string, inner: string, close: string)
    requires |open| == 1 && |close| == 1 && !IsWs(close[0]) && AllWs(inner) && At(s, j, open + (inner + close))
    ensures j + |inner| + 2 <= |s| && s[j] == open[0] && SkipWs(s, j + 1) == j + 1 + |inner|
    ensures s[j + 1 + |inner|] == close[0]
  {
    AtSplit(s, j, open, inner + close);
    AtSplit(s, j + 1, inner, close);
    TokenAt(s, j, open);
    TokenAt(s, j + 1 + |inner|, close);
    WsSkipped(s, j + 1, inner);
  }

  lemma {:induction false} ArrReads(s: string, i: nat, d: Doc, num: Strtod)
    requires d.ArrDoc? && Stands(s, i, d, num)
    ensures i + Len(d) <= |s| && ValueAt(s, i, num) == Some((Denoted(d), i + Len(d)))
    decreases d, 0, |d.items| + 1
  {
    hide At, ItemsAt, ValueAt, SkipWs, AllWs;
    var j := i + |d.gap|;
    if d.items == [] {
      EmptyReads(s, j, "[", d.inner, "]");
      WsSkipped(s, i, d.gap);
      assert Denoted(d).items == [];
      EmptyAt(s, i, j, num);
    } else {
      TokenAt(s, j, "[");
      WsSkipped(s, i, d.gap);
      ItemsRead(s, j + 1, d, 0, num);
      FirstNotClose(s, j + 1, d.items[0].value, num);
      assert ItemValues(d, 0) == Denoted(d).items;
      hide Stands, StandItems;
      ArrayAt(s, i, j, num, ItemValues(d, 0), j + 1 + LenItems(d, 0));
    }
  }

  lemma EmptyAt(s: string, i: nat, j: nat, num: Strtod)
    requires i <= j < |s| && SkipWs(s, i) == j
    ensures s[j] == '[' && Is(s, SkipWs(s, j + 1), ']') ==>
              ValueAt(s, i, num) == Some((JArr([]), SkipWs(s, j + 1) + 1))
    ensures s[j] == '{' && Is(s, SkipWs(s, j + 1), '}') ==>
              ValueAt(s, i, num) == Some((JObj([]), SkipWs(s, j + 1) + 1))
  {
    hide MembersAt, ItemsAt, SkipWs;
  }

  lemma ArrayAt(s: string, i: nat, j: nat, num: Strtod, vs: seq<Value>, k: nat)
    requires i <= j < |s| && SkipWs(s, i) == j && s[j] == '[' && !Is(s, SkipWs(s, j + 1), ']')
    requires ItemsAt(s, j + 1, num) == Some((vs, k))
    ensures ValueAt(s, i, num) == Some((JArr(vs), k))
  {
    hide MembersAt, ItemsAt, SkipWs;
  }

  /** What stands as a value does not start with a closing bracket or brace. */
  lemma FirstNotClose(s: string, i: nat, d: Doc, num: Strtod)
    requires Stands(s, i, d, num)
    ensures i <= |s| && !Is(s, SkipWs(s, i), ']') && !Is(s, SkipWs(s, i), '}')
  {
    hide At, Quoted, StandItems, StandMembers;
    var j := i + |d.gap|;
    AtInside(s, i, d.gap);
    match d {
      case NullDoc(_) => TokenAt(s, j, "null");
      case BoolDoc(_, b) => TokenAt(s, j, if b then "true" else "false");
      case NumDoc(_, n, len) =>
      case StrDoc(_, chars) => QuotedStarts(s, j, chars);
      case ArrDoc(_, inner, items) => TokenAt(s, j, if items == [] then "[" + (inner + "]") else "[");
      case ObjDoc(_, inner, members) => TokenAt(s, j, if members == [] then "{" + (inner + "}") else "{");
    }
    WsSkipped(s, i, d.gap);
  }

  function ItemValues(d: Doc, k: nat): seq<Value>
    requires d.ArrDoc? && k <= |d.items|
  {
    seq(|d.items| - k, i requires 0 <= i < |d.items| - k => Denoted(d.items[k + i].value))
  }

  lemma LenItemsStep(d: Doc, k: nat)
    requires d.ArrDoc? && k < |d.items|
    ensures LenItems(d, k) == Len(d.items[k].value) + |d.items[k].after| + 1
                              + (if k + 1 == |d.items| then 0 else LenItems(d, k + 1))
  {
    hide Len;
  }

  lemma {:induction false} ItemsRead(s: string, i: nat, d: Doc, k: nat, num: Strtod)
    requires d.ArrDoc? && k < |d.items| && StandItems(s, i, d, k, num)
    ensures i + LenItems(d, k) <= |s|
    ensures ItemsAt(s, i, num) == Some((ItemValues(d, k), i + LenItems(d, k)))
    decreases d, 0, |d.items| - k
  {
    hide At, ValueAt, Stands, ItemsAt, ItemAfter, SkipWs, AllWs, LenItems;
    var v := d.items[k].value;
    var j := i + Len(v);
    ValueReads(s, i, v, num);
    JsonCursor.ItemsStep(s, i, num);
    LenItemsStep(d, k);
    hide Len, Denoted;
    if k + 1 < |d.items| { ItemsRead(s, j + |d.items[k].after| + 1, d, k + 1, num); }
    ItemsGoOn(s, j, d, k, num);
  }

  /** Behind an item: the closing bracket, or a comma and more. */
  lemma ItemsGoOn(s: string, j: nat, d: Doc, k: nat, num: Strtod)
    requires d.ArrDoc? && k < |d.items| && j <= |s|
    requires At(s, j, d.items[k].after) && AllWs(d.items[k].after)
    requires var m := j + |d.items[k].after|;
             if k + 1 == |d.items| then At(s, m, "]")
             else && At(s, m, ",") && m + 1 + LenItems(d, k + 1) <= |s|
                  && ItemsAt(s, m + 1, num) == Some((ItemValues(d, k + 1), m + 1 + LenItems(d, k + 1)))
    ensures var x := d.items[k];
            var end := j + |x.after| + 1 + (if k + 1 == |d.items| then 0 else LenItems(d, k + 1));
            end <= |s| && ItemAfter(s, Denoted(x.value), j, num) == Some((ItemValues(d, k), end))
  {
    hide At, ItemsAt, LenItems, Denoted;
    var x := d.items[k];
    var m := j + |x.after|;
    TokenAt(s, m, if k + 1 == |d.items| then "]" else ",");
    WsSkipped(s, j, x.after);
    JsonCursor.ItemAfterCases(s, Denoted(x.value), j, num);
    if k + 1 == |d.items| {
      assert ItemValues(d, k) == [Denoted(x.value)];
    } else {
      assert ItemValues(d, k) == [Denoted(x.value)] + ItemValues(d, k + 1);
    }
  }

  lemma {:induction false} ObjReads(s: string, i: nat, d: Doc, num: Strtod)
    requires d.ObjDoc? && Stands(s, i, d, num)
    ensures i + Len(d) <= |s| && ValueAt(s, i, num) == Some((Denoted(d), i + Len(d)))
    decreases d, 0, |d.members| + 1
  {
    hide At, MembersAt, ValueAt, StandMembers, Quoted;
    var j := i + |d.gap|;
    if d.members == [] {
      EmptyReads(s, j, "{", d.inner, "}");
      WsSkipped(s, i, d.gap);
      assert Denoted(d).members == [];
      EmptyAt(s, i, j, num);
    } else {
      TokenAt(s, j, "{");
      WsSkipped(s, i, d.gap);
      MembersRead(s, j + 1, d, 0, num);
      FirstKey(s, j + 1, d, num);
      assert MemberValues(d, 0) == Denoted(d).members;
      hide Stands;
      ObjectAt(s, i, j, num, MemberValues(d, 0), j + 1 + LenMembers(d, 0));
    }
  }

  lemma FirstKey(s: string, i: nat, d: Doc, num: Strtod)
    requires d.ObjDoc? && d.members != [] && StandMembers(s, i, d, 0, num)
    ensures i <= |s| && !Is(s, SkipWs(s, i), '}')
  {
    hide At, Quoted, Stands;
    QuotedStarts(s, i + |d.members[0].gap|, d.members[0].key);
    WsSkipped(s, i, d.members[0].gap);
  }

  lemma ObjectAt(s: string, i: nat, j: nat, num: Strtod, ms: seq<(string, Value)>, k: nat)
    requires i <= j < |s| && SkipWs(s, i) == j && s[j] == '{' && !Is(s, SkipWs(s, j + 1), '}')
    requires MembersAt(s, j + 1, num) == Some((ms, k))
    ensures ValueAt(s, i, num) == Some((JObj(ms), k))
  {
    hide MembersAt, ItemsAt, SkipWs;
  }

  function MemberValues(d: Doc, k: nat): seq<(string, Value)>
    requires d.ObjDoc? && k <= |d.members|
  {
    seq(|d.members| - k, i requires 0 <= i < |d.members| - k =>
      (TextOf(d.members[k + i].key), Denoted(d.members[k + i].value)))
  }

  lemma KeyReads(s: string, i: nat, x: MemberDoc)
    requires var a := i + |x.gap|;
             var b := a + |Quoted(x.key)|;
             && At(s, i, x.gap) && AllWs(x.gap) && CharsOk(x.key) && At(s, a, Quoted(x.key))
             && At(s, b, x.colonGap) && AllWs(x.colonGap) && At(s, b + |x.colonGap|, ":")
    ensures i <= |s| && KeyAt(s, i) == Some((TextOf(x.key), i + |x.gap| + |Quoted(x.key)| + |x.colonGap| + 1))
  {
    hide At, Quoted, StringAt, TextOf;
    var a := i + |x.gap|;
    var b := a + |Quoted(x.key)|;
    QuotedStarts(s, a, x.key);
    WsSkipped(s, i, x.gap);
    StringExact(s, a);
    TokenAt(s, b + |x.colonGap|, ":");
    WsSkipped(s, b, x.colonGap);
  }

  lemma LenMembersStep(d: Doc, k: nat)
    requires d.ObjDoc? && k < |d.members|
    ensures var m := d.members[k];
            LenMembers(d, k) == |m.gap| + |Quoted(m.key)| + |m.colonGap| + 1 + Len(m.value) + |m.after| + 1
                                + (if k + 1 == |d.members| then 0 else LenMembers(d, k + 1))
  {
    hide Len, Quoted;
  }

  /** A key, a colon and a value. */
  lemma FirstMemberReads(s: string, i: nat, x: MemberDoc, num: Strtod)
    requires var a := i + |x.gap|;
             var b := a + |Quoted(x.key)|;
             var c := b + |x.colonGap|;
             && At(s, i, x.gap) && AllWs(x.gap) && CharsOk(x.key) && At(s, a, Quoted(x.key))
             && At(s, b, x.colonGap) && AllWs(x.colonGap) && At(s, c, ":")
             && c + 1 <= |s| && ValueAt(s, c + 1, num) == Some((Denoted(x.value), c + 1 + Len(x.value)))
    ensures var j := i + |x.gap| + |Quoted(x.key)| + |x.colonGap| + 1 + Len(x.value);
            i <= |s| && j <= |s| && MembersAt(s, i, num) == MemberAfter(s, TextOf(x.key), Denoted(x.value), j, num)
  {
    hide At, ValueAt, Quoted, KeyAt, TextOf, MembersAt, MemberAt, MemberAfter, Len, Denoted;
    KeyReads(s, i, x);
    JsonCursor.MembersStep(s, i, num);
    JsonCursor.MemberStep(s, TextOf(x.key), i + |x.gap| + |Quoted(x.key)| + |x.colonGap| + 1, num);
  }

  lemma {:induction false} MembersRead(s: string, i: nat, d: Doc, k: nat, num: Strtod)
    requires d.ObjDoc? && k < |d.members| && StandMembers(s, i, d, k, num)
    ensures i + LenMembers(d, k) <= |s|
    ensures MembersAt(s, i, num) == Some((MemberValues(d, k), i + LenMembers(d, k)))
    decreases d, 0, |d.members| - k
  {
    hide At, ValueAt, Stands, Quoted, KeyAt, TextOf, MembersAt, MemberAt, MemberAfter, SkipWs, AllWs, LenMembers;
    var x := d.members[k];
    var c := i + |x.gap| + |Quoted(x.key)| + |x.colonGap|;
    ValueReads(s, c + 1, x.value, num);
    FirstMemberReads(s, i, x, num);
    LenMembersStep(d, k);
    hide Len, Denoted;
    if k + 1 < |d.members| { MembersRead(s, c + 1 + Len(x.value) + |x.after| + 1, d, k + 1, num); }
    MembersGoOn(s, c + 1 + Len(x.value), d, k, num);
  }

  /** Behind a member: the closing brace, or a comma and more. */
  lemma MembersGoOn(s: string, j: nat, d: Doc, k: nat, num: Strtod)
    requires d.ObjDoc? && k < |d.members| && j <= |s|
    requires At(s, j, d.members[k].after) && AllWs(d.members[k].after)
    requires var m := j + |d.members[k].after|;
             if k + 1 == |d.members| then At(s, m, "}")
             else && At(s, m, ",") && m + 1 + LenMembers(d, k + 1) <= |s|
                  && MembersAt(s, m + 1, num) == Some((MemberValues(d, k + 1), m + 1 + LenMembers(d, k + 1)))
    ensures var x := d.members[k];
            var end := j + |x.after| + 1 + (if k + 1 == |d.members| then 0 else LenMembers(d, k + 1));
            && end <= |s|
            && MemberAfter(s, TextOf(x.key), Denoted(x.value), j, num) == Some((MemberValues(d, k), end))
  {
    hide At, TextOf, MembersAt, LenMembers, Denoted;
    var x := d.members[k];
    var m := j + |x.after|;
    TokenAt(s, m, if k + 1 == |d.members| then "}" else ",");
    WsSkipped(s, j, x.after);
    JsonCursor.MemberAfterCases(s, TextOf(x.key), Denoted(x.value), j, num);
    if k + 1 == |d.members| {
      assert MemberValues(d, k) == [(TextOf(x.key), Denoted(x.value))];
    } else {
      assert MemberValues(d, k) == [(TextOf(x.key), Denoted(x.value))] + MemberValues(d, k + 1);
    }
  }

  // ---------- what is read stands there ----------

  lemma WsTaken(s: string, i: nat) returns (gap: string)
    requires i <= |s|
    ensures AllWs(gap) && At(s, i, gap) && i + |gap| == SkipWs(s, i)
  {
    gap := s[i..SkipWs(s, i)];
  }

  lemma OneChar(s: string, i: nat, c: char)
    requires Is(s, i, c)
    ensures At(s, i, [c])
  {
    assert s[i..i + 1] == [c];
  }

  lemma {:induction false} ValueTaken(s: string, i: nat, num: Strtod) returns (d: Doc)
    requires i <= |s| && ValueAt(s, i, num).Some?
    ensures Stands(s, i, d, num)
    decreases |s| - i, 2
  {
    hide At, Quoted, StringAt, ItemsAt, MembersAt, SkipWs, AllWs, CharsOk;
    var gap := WsTaken(s, i);
    var j := SkipWs(s, i);
    if s[j] == '{' {
      d := ObjTaken(s, i, gap, num);
    } else if s[j] == '[' {
      d := ArrTaken(s, i, gap, num);
    } else if s[j] == '"' {
      StringExact(s, j);
      var cs :| CharsOk(cs) && At(s, j, Quoted(cs));
      d := StrDoc(gap, cs);
    } else {
      d := LiteralTaken(s, i, gap, num);
    }
  }

  lemma LiteralTaken(s: string, i: nat, gap: string, num: Strtod) returns (d: Doc)
    requires At(s, i, gap) && AllWs(gap) && i + |gap| < |s| && LiteralAt(s, i + |gap|, num).Some?
    ensures Stands(s, i, d, num)
  {
    hide At;
    var j := i + |gap|;
    if At(s, j, "true") && s[j] == 't' {
      d := BoolDoc(gap, true);
    } else if s[j] == 't' || s[j] == 'f' {
      d := BoolDoc(gap, false);
    } else if s[j] == 'n' {
      d := NullDoc(gap);
    } else {
      var (n, len) := num(s[j..]);
      d := NumDoc(gap, n, len);
    }
    if s[j] == 'f' { NotAt(s, j, "true", 0); }
  }

  lemma {:induction false} ArrTaken(s: string, i: nat, gap: string, num: Strtod) returns (d: Doc)
    requires i <= |s| && At(s, i, gap) && AllWs(gap) && i + |gap| == SkipWs(s, i)
    requires Is(s, i + |gap|, '[') && ValueAt(s, i, num).Some?
    ensures Stands(s, i, d, num)
    decreases |s| - i, 1
  {
    hide At, Quoted, StringAt, ItemsAt, MembersAt, SkipWs, AllWs;
    var j := i + |gap|;
    OneChar(s, j, '[');
    var m := SkipWs(s, j + 1);
    if Is(s, m, ']') {
      var inner := WsTaken(s, j + 1);
      OneChar(s, m, ']');
      AtSplit(s, j + 1, inner, "]");
      AtSplit(s, j, "[", inner + "]");
      d := ArrDoc(gap, inner, []);
    } else {
      var items := ItemsTaken(s, j + 1, num);
      d := ArrDoc(gap, "", items);
      FromBare(s, j + 1, gap, items, num);
    }
  }

  /** Items do not depend on the array they are put into. */
  lemma {:induction false} SameItems(s: string, i: nat, d: Doc, k: nat, f: Doc, m: nat, num: Strtod)
    requires d.ArrDoc? && f.ArrDoc? && k < |d.items| && m < |f.items| && d.items[k..] == f.items[m..]
    requires StandItems(s, i, d, k, num)
    ensures StandItems(s, i, f, m, num)
    decreases |d.items| - k
  {
    hide At, Stands, Len, AllWs;
    assert d.items[k] == d.items[k..][0] == f.items[m..][0] == f.items[m];
    assert |d.items| - k == |f.items| - m;
    if k + 1 < |d.items| {
      assert d.items[k + 1..] == d.items[k..][1..] == f.items[m + 1..];
      SameItems(s, i + Len(d.items[k].value) + |d.items[k].after| + 1, d, k + 1, f, m + 1, num);
    }
  }

  lemma FromBare(s: string, i: nat, gap: string, items: seq<ItemDoc>, num: Strtod)
    requires items != [] && StandItems(s, i, ArrDoc("", "", items), 0, num)
    ensures StandItems(s, i, ArrDoc(gap, "", items), 0, num)
  {
    SameItems(s, i, ArrDoc("", "", items), 0, ArrDoc(gap, "", items), 0, num);
  }

  lemma {:induction false} ItemsTaken(s: string, i: nat, num: Strtod) returns (items: seq<ItemDoc>)
    requires i <= |s| && ItemsAt(s, i, num).Some?
    ensures items != [] && StandItems(s, i, ArrDoc("", "", items), 0, num)
    decreases |s| - i, 3
  {
    hide At, ValueAt, Stands, SkipWs, AllWs, Denoted, Len, ItemsAt, ItemAfter;
    JsonCursor.ItemsStep(s, i, num);
    var v := ValueTaken(s, i, num);
    ValueReads(s, i, v, num);
    var j := i + Len(v);
    LenPositive(s, i, v, num);
    JsonCursor.ItemAfterCases(s, Denoted(v), j, num);
    var after := WsTaken(s, j);
    var m := SkipWs(s, j);
    if Is(s, m, ',') {
      OneChar(s, m, ',');
      var rest := ItemsTaken(s, m + 1, num);
      items := [ItemDoc(v, after)] + rest;
      SameItems(s, m + 1, ArrDoc("", "", rest), 0, ArrDoc("", "", items), 1, num);
    } else {
      OneChar(s, m, ']');
      items := [ItemDoc(v, after)];
    }
  }

  lemma LenPositive(s: string, i: nat, d: Doc, num: Strtod)
    requires Stands(s, i, d, num)
    ensures Len(d) > 0
  {
  }

  lemma {:induction false} ObjTaken(s: string, i: nat, gap: string, num: Strtod) returns (d: Doc)
    requires i <= |s| && At(s, i, gap) && AllWs(gap) && i + |gap| == SkipWs(s, i)
    requires Is(s, i + |gap|, '{') && ValueAt(s, i, num).Some?
    ensures Stands(s, i, d, num)
    decreases |s| - i, 1
  {
    hide At, Quoted, StringAt, ItemsAt, MembersAt, SkipWs, AllWs;
    var j := i + |gap|;
    OneChar(s, j, '{');
    var m := SkipWs(s, j + 1);
    if Is(s, m, '}') {
      var inner := WsTaken(s, j + 1);
      OneChar(s, m, '}');
      AtSplit(s, j + 1, inner, "}");
      AtSplit(s, j, "{", inner + "}");
      d := ObjDoc(gap, inner, []);
    } else {
      var members := MembersTaken(s, j + 1, num);
      d := ObjDoc(gap, "", members);
      SameMembers(s, j + 1, ObjDoc("", "", members), 0, d, 0, num);
    }
  }

  lemma {:induction false} SameMembers(s: string, i: nat, d: Doc, k: nat, f: Doc, m: nat, num: Strtod)
    requires d.ObjDoc? && f.ObjDoc? && k < |d.members| && m < |f.members| && d.members[k..] == f.members[m..]
    requires StandMembers(s, i, d, k, num)
    ensures StandMembers(s, i, f, m, num)
    decreases |d.members| - k
  {
    hide At, Stands, Len, AllWs, Quoted, CharsOk;
    var x := d.members[k];
    assert x == d.members[k..][0] == f.members[m..][0] == f.members[m];
    assert |d.members| - k == |f.members| - m;
    if k + 1 < |d.members| {
      assert d.members[k + 1..] == d.members[k..][1..] == f.members[m + 1..];
      var next := i + |x.gap| + |Quoted(x.key)| + |x.colonGap| + 1 + Len(x.value) + |x.after| + 1;
      SameMembers(s, next, d, k + 1, f, m + 1, num);
    }
  }

  lemma KeyTaken(s: string, i: nat) returns (gap: string, key: seq<CharText>, colonGap: string)
    requires i <= |s| && KeyAt(s, i).Some?
    ensures var a := i + |gap|;
            var b := a + |Quoted(key)|;
            && At(s, i, gap) && AllWs(gap) && CharsOk(key) && At(s, a, Quoted(key))
            && At(s, b, colonGap) && AllWs(colonGap) && At(s, b + |colonGap|, ":")
            && KeyAt(s, i) == Some((TextOf(key), b + |colonGap| + 1))
  {
    hide At, Quoted, StringAt, TextOf, SkipWs, AllWs, CharsOk;
    gap := WsTaken(s, i);
    var a := SkipWs(s, i);
    StringExact(s, a);
    var cs :| CharsOk(cs) && At(s, a, Quoted(cs));
    key := cs;
    var b := a + |Quoted(key)|;
    colonGap := WsTaken(s, b);
    OneChar(s, SkipWs(s, b), ':');
  }

  lemma {:induction false} MembersTaken(s: string, i: nat, num: Strtod) returns (members: seq<MemberDoc>)
    requires i <= |s| && MembersAt(s, i, num).Some?
    ensures members != [] && StandMembers(s, i, ObjDoc("", "", members), 0, num)
    decreases |s| - i, 3
  {
    hide At, ValueAt, Stands, SkipWs, AllWs, Denoted, Quoted, TextOf, CharsOk;
    hide MembersAt, MemberAt, MemberAfter, KeyAt, Len;
    JsonCursor.MembersStep(s, i, num);
    var gap, key, colonGap := KeyTaken(s, i);
    var c := i + |gap| + |Quoted(key)| + |colonGap| + 1;
    JsonCursor.MemberStep(s, TextOf(key), c, num);
    var v := ValueTaken(s, c, num);
    ValueReads(s, c, v, num);
    var j := c + Len(v);
    JsonCursor.MemberAfterCases(s, TextOf(key), Denoted(v), j, num);
    var after := WsTaken(s, j);
    var m := SkipWs(s, j);
    var x := MemberDoc(gap, key, colonGap, v, after);
    if Is(s, m, ',') {
      OneChar(s, m, ',');
      var rest := MembersTaken(s, m + 1, num);
      members := [x] + rest;
      SameMembers(s, m + 1, ObjDoc("", "", rest), 0, ObjDoc("", "", members), 1, num);
    } else {
      OneChar(s, m, '}');
      members := [x];
    }
  }

  /** The reader accepts a value `v` that ends at `k` if and only if one stands there that denotes
      `v`; so it refuses every text in which none does. */
  lemma {:induction false} ReadsExactly(s: string, i: nat, num: Strtod, v: Value, k: nat)
    requires i <= |s|
    ensures ValueAt(s, i, num) == Some((v, k))
            <==> exists d: Doc :: Stands(s, i, d, num) && Denoted(d) == v && k == i + Len(d)
  {
    hide ValueAt, Stands, Denoted, Len;
    if ValueAt(s, i, num) == Some((v, k)) {
      var d := ValueTaken(s, i, num);
      ValueReads(s, i, d, num);
    }
    forall d: Doc | Stands(s, i, d, num) ensures ValueAt(s, i, num) == Some((Denoted(d), i + Len(d))) {
      ValueReads(s, i, d, num);
    }
  }
}
