/** The printed form of a JSON value by RFC 8259, with any white space between tokens, and the
    round trip through the reader. */
module JsonPrint {
  import opened Options
  import opened Text
  import opened JsonParse
  import opened JsonCursor

  // ---------- printer ----------

  function Digits(n: nat): string {
    if n < 10 then ['0' + n as char] else Digits(n / 10) + ['0' + (n % 10) as char]
  }

  function Decimal(n: int): string {
    if n < 0 then "-" + Digits(-n) else Digits(n)
  }

  /** Section 7 without \u: the two characters that must be escaped, and the short escapes. */
  function Escape(c: char): string {
    if c == '"' then "\\\"" else if c == '\\' then "\\\\"
    else if c == '\n' then "\\n" else if c == '\t' then "\\t" else if c == '\r' then "\\r"
    else if c == '\U{8}' then "\\b" else if c == '\U{c}' then "\\f"
    else [c]
  }

  function EscapeAll(t: string): string {
    if t == [] then [] else Escape(t[0]) + EscapeAll(t[1..])
  }

  function Quote(t: string): string {
    "\"" + (EscapeAll(t) + "\"")
  }

  ghost predicate White(ws: string) {
    forall i :: 0 <= i < |ws| ==> ws[i] in {' ', '\t', '\n', '\r'}
  }

  function Print(v: Value, ws: string): string
    decreases v, 2, 0
  {
    match v
    case JNull => "null"
    case JBool(b) => if b then "true" else "false"
    case JNum(n) => Decimal(n.Floor)
    case JStr(t) => Quote(t)
    case JArr(items) => "[" + (ws + (if items == [] then "]" else PrintItems(v, 0, ws)))
    case JObj(members) => "{" + (ws + (if members == [] then "}" else PrintMembers(v, 0, ws)))
  }

  /** The items of an array from the `k`-th on, with the closing bracket. */
  function PrintItems(v: Value, k: nat, ws: string): string
    requires v.JArr? && k < |v.items|
    decreases v, 1, |v.items| - k, 1
  {
    Print(v.items[k], ws) + (ws + ItemsTail(v, k, ws))
  }

  /** What follows the `k`-th item. */
  function ItemsTail(v: Value, k: nat, ws: string): string
    requires v.JArr? && k < |v.items|
    decreases v, 1, |v.items| - k, 0
  {
    if k + 1 == |v.items| then "]" else "," + (ws + PrintItems(v, k + 1, ws))
  }

  function PrintMembers(v: Value, k: nat, ws: string): string
    requires v.JObj? && k < |v.members|
    decreases v, 1, |v.members| - k, 1
  {
    Quote(v.members[k].0) + (ws + (":" + (ws + (Print(v.members[k].1, ws) + (ws + MembersTail(v, k, ws))))))
  }

  function MembersTail(v: Value, k: nat, ws: string): string
    requires v.JObj? && k < |v.members|
    decreases v, 1, |v.members| - k, 0
  {
    if k + 1 == |v.members| then "}" else "," + (ws + PrintMembers(v, k + 1, ws))
  }

  /** Values whose numbers are integers that the number format holds exactly. */
  ghost predicate Integral(v: Value, exact: iset<int>) {
    match v
    case JNum(n) => n == n.Floor as real && n.Floor in exact
    case JArr(items) => forall i :: 0 <= i < |items| ==> Integral(items[i], exact)
    case JObj(members) => forall i :: 0 <= i < |members| ==> Integral(members[i].1, exact)
    case _ => true
  }

  /** Where a number may end: at the end of the text, at white space or before a separator. */
  predicate Delimited(s: string, j: nat) {
    j >= |s| || IsWs(s[j]) || s[j] == ',' || s[j] == ']' || s[j] == '}'
  }

  ghost predicate ReadsInteger(num: Strtod, n: int, rest: string) {
    num(Decimal(n) + rest) == (n as real, |Decimal(n)|)
  }

  /** What the C library promises of decimal integers that a double holds exactly. */
  ghost predicate ReadsIntegers(num: Strtod, exact: iset<int>) {
    forall n, rest :: n in exact && Delimited(rest, 0) ==> ReadsInteger(num, n, rest)
  }

  // ---------- reading it back ----------

  lemma {:induction false} DigitsStart(n: nat)
    ensures Digits(n) != [] && '0' <= Digits(n)[0] <= '9'
  {
    if n >= 10 { DigitsStart(n / 10); }
  }

  lemma SkipWhite(s: string, i: nat, ws: string)
    requires White(ws) && At(s, i, ws) && (i + |ws| == |s| || !IsWs(s[i + |ws|]))
    ensures SkipWs(s, i) == i + |ws|
  {
    AtChars(s, i, ws);
    var j := SkipWs(s, i);
    assert forall k :: i <= k < i + |ws| ==> IsWs(s[k]);
  }

  lemma CharReads(s: string, i: nat, c: char)
    requires At(s, i, Escape(c))
    ensures i < |s| && s[i] != '"' && CharAt(s, i) == (c, i + |Escape(c)|)
  {
    AtChars(s, i, Escape(c));
  }

  lemma {:induction false} BodyReads(s: string, i: nat, t: string)
    requires At(s, i, EscapeAll(t) + "\"")
    ensures BodyAt(s, i) == Some((t, i + |EscapeAll(t)| + 1))
    decreases |t|
  {
    hide CharAt, Escape;
    AtSplit(s, i, EscapeAll(t), "\"");
    AtChars(s, i + |EscapeAll(t)|, "\"");
    if t != [] {
      var e, rest := Escape(t[0]), EscapeAll(t[1..]);
      AtSplit(s, i, e, rest + "\"");
      assert e + rest + "\"" == e + (rest + "\"");
      CharReads(s, i, t[0]);
      BodyReads(s, i + |e|, t[1..]);
      assert [t[0]] + t[1..] == t;
    }
  }

  lemma StringReads(s: string, i: nat, t: string)
    requires At(s, i, Quote(t))
    ensures i < |s| && s[i] == '"' && StringAt(s, i) == Some((t, i + |Quote(t)|))
  {
    hide BodyAt, EscapeAll;
    AtSplit(s, i, "\"", EscapeAll(t) + "\"");
    AtChars(s, i, "\"");
    BodyReads(s, i + 1, t);
  }

  /** A printed value starts neither with white space nor with a closing bracket. */
  lemma PrintStarts(v: Value, ws: string)
    ensures Print(v, ws) != [] && !IsWs(Print(v, ws)[0]) && Print(v, ws)[0] != ']'
  {
    hide PrintItems, PrintMembers, EscapeAll, Digits;
    if v.JNum? {
      DigitsStart(if v.n.Floor < 0 then -v.n.Floor else v.n.Floor);
    }
  }

  /** White space in front of a value is skipped. */
  lemma WhiteThenValue(s: string, i: nat, ws: string, v: Value, vws: string, num: Strtod)
    requires White(ws) && At(s, i, ws) && At(s, i + |ws|, Print(v, vws))
    ensures i + |ws| < |s| && ValueAt(s, i, num) == ValueAt(s, i + |ws|, num)
  {
    hide ValueAt, Print;
    PrintStarts(v, vws);
    AtChars(s, i + |ws|, Print(v, vws));
    SkipWhite(s, i, ws);
    SkipTwice(s, i, i + |ws|);
    SameValue(s, i, i + |ws|, num);
  }

  /** A separator or closing byte found behind white space. */
  lemma WhiteThenByte(s: string, i: nat, ws: string, c: char)
    requires White(ws) && !IsWs(c) && At(s, i, ws) && At(s, i + |ws|, [c])
    ensures SkipWs(s, i) == i + |ws| < |s| && s[i + |ws|] == c
  {
    AtChars(s, i + |ws|, [c]);
    SkipWhite(s, i, ws);
  }

  lemma WhiteDelimits(s: string, i: nat, ws: string, c: char)
    requires White(ws) && At(s, i, ws) && At(s, i + |ws|, [c]) && (c == ',' || c == ']' || c == '}')
    ensures Delimited(s, i)
  {
    AtChars(s, i, ws);
    AtChars(s, i + |ws|, [c]);
  }

  /** Scalars. */
  lemma ScalarReads(s: string, i: nat, v: Value, ws: string, num: Strtod, exact: iset<int>)
    requires !v.JArr? && !v.JObj? && Integral(v, exact) && ReadsIntegers(num, exact)
    requires At(s, i, Print(v, ws)) && (v.JNum? ==> Delimited(s, i + |Print(v, ws)|))
    ensures i <= |s| && ValueAt(s, i, num) == Some((v, i + |Print(v, ws)|))
  {
    hide EscapeAll, Digits, StringAt, ItemsAt, MembersAt, Decimal;
    PrintStarts(v, ws);
    AtChars(s, i, Print(v, ws));
    SkipWhite(s, i, "");
    match v
    case JStr(t) => StringReads(s, i, t);
    case JNum(n) => NumberReads(s, i, n.Floor, num, exact);
    case _ =>
  }

  lemma NumberReads(s: string, i: nat, n: int, num: Strtod, exact: iset<int>)
    requires n in exact && ReadsIntegers(num, exact) && At(s, i, Decimal(n)) && Delimited(s, i + |Decimal(n)|)
    ensures i < |s| && StartsNumber(s[i]) && num(s[i..]) == (n as real, |Decimal(n)|)
    ensures |Decimal(n)| > 0
  {
    var d := Decimal(n);
    DigitsStart(if n < 0 then -n else n);
    AtChars(s, i, d);
    var rest := s[i + |d|..];
    assert s[i..] == d + rest;
    assert Delimited(rest, 0);
    assert ReadsInteger(num, n, rest);
  }

  /** The main induction: a printed value is read back, and the reader stops right after it. */
  lemma {:induction false} ValueReads(s: string, i: nat, v: Value, ws: string, num: Strtod, exact: iset<int>)
    requires White(ws) && Integral(v, exact) && ReadsIntegers(num, exact)
    requires At(s, i, Print(v, ws)) && (v.JNum? ==> Delimited(s, i + |Print(v, ws)|))
    ensures i <= |s| && ValueAt(s, i, num) == Some((v, i + |Print(v, ws)|))
    decreases v, 2, 0
  {
    if v.JArr? {
      ArrayReads(s, i, v, ws, num, exact);
    } else if v.JObj? {
      ObjectReads(s, i, v, ws, num, exact);
    } else {
      ScalarReads(s, i, v, ws, num, exact);
    }
  }

  // ---------- arrays ----------

  lemma SkipHere(s: string, i: nat)
    requires i < |s| && !IsWs(s[i])
    ensures SkipWs(s, i) == i
  {
  }

  lemma ArrayStep(s: string, i: nat, num: Strtod)
    requires Is(s, i, '[')
    ensures Is(s, SkipWs(s, i + 1), ']') ==> ValueAt(s, i, num) == Some((JArr([]), SkipWs(s, i + 1) + 1))
    ensures !Is(s, SkipWs(s, i + 1), ']') && ItemsAt(s, i + 1, num).Some? ==>
              ValueAt(s, i, num) == Some((JArr(ItemsAt(s, i + 1, num).value.0), ItemsAt(s, i + 1, num).value.1))
  {
    SkipHere(s, i);
    hide ItemsAt, MembersAt, StringAt, LiteralAt, SkipWs;
  }

  lemma ObjectStep(s: string, i: nat, num: Strtod)
    requires Is(s, i, '{')
    ensures Is(s, SkipWs(s, i + 1), '}') ==> ValueAt(s, i, num) == Some((JObj([]), SkipWs(s, i + 1) + 1))
    ensures !Is(s, SkipWs(s, i + 1), '}') && MembersAt(s, i + 1, num).Some? ==>
              ValueAt(s, i, num) == Some((JObj(MembersAt(s, i + 1, num).value.0), MembersAt(s, i + 1, num).value.1))
  {
    SkipHere(s, i);
    hide ItemsAt, MembersAt, StringAt, LiteralAt, SkipWs;
  }

  lemma ItemsStart(v: Value, k: nat, ws: string)
    requires v.JArr? && k < |v.items|
    ensures PrintItems(v, k, ws) != [] && !IsWs(PrintItems(v, k, ws)[0]) && PrintItems(v, k, ws)[0] != ']'
  {
    hide Print, ItemsTail;
    PrintStarts(v.items[k], ws);
  }

  /** White space in front of the items is skipped, and a closing bracket does not follow. */
  lemma WhiteThenItems(s: string, i: nat, v: Value, k: nat, ws: string, num: Strtod)
    requires v.JArr? && k < |v.items| && White(ws) && At(s, i, ws) && At(s, i + |ws|, PrintItems(v, k, ws))
    ensures SkipWs(s, i) == i + |ws| < |s| && s[i + |ws|] != ']'
    ensures ItemsAt(s, i, num) == ItemsAt(s, i + |ws|, num)
  {
    hide PrintItems, ItemsAt;
    ItemsStart(v, k, ws);
    AtChars(s, i + |ws|, PrintItems(v, k, ws));
    SkipWhite(s, i, ws);
    SameItems(s, i, i + |ws|, num);
  }

  lemma {:induction false} ArrayReads(s: string, i: nat, v: Value, ws: string, num: Strtod, exact: iset<int>)
    requires v.JArr? && White(ws) && Integral(v, exact) && ReadsIntegers(num, exact) && At(s, i, Print(v, ws))
    ensures i <= |s| && ValueAt(s, i, num) == Some((v, i + |Print(v, ws)|))
    decreases v, 1, |v.items| + 1
  {
    hide PrintItems, ItemsAt, ValueAt, ReadsIntegers, White, SkipWs, At, Integral;
    var body := if v.items == [] then "]" else PrintItems(v, 0, ws);
    assert Print(v, ws) == "[" + (ws + body);
    AtSplit(s, i, "[", ws + body);
    AtSplit(s, i + 1, ws, body);
    AtChars(s, i, "[");
    AtInside(s, i, "[");
    ArrayStep(s, i, num);
    if v.items == [] {
      WhiteThenByte(s, i + 1, ws, ']');
    } else {
      ItemsRead(s, i + 1 + |ws|, v, 0, ws, num, exact);
      WhiteThenItems(s, i + 1, v, 0, ws, num);
      assert v.items[0..] == v.items;
    }
  }

  lemma {:induction false} ItemsRead(s: string, i: nat, v: Value, k: nat, ws: string, num: Strtod, exact: iset<int>)
    requires v.JArr? && k < |v.items| && White(ws) && Integral(v, exact) && ReadsIntegers(num, exact)
    requires At(s, i, PrintItems(v, k, ws))
    ensures i <= |s| && ItemsAt(s, i, num) == Some((v.items[k..], i + |PrintItems(v, k, ws)|))
    decreases v, 1, |v.items| - k
  {
    hide Print, ItemsTail, ValueAt, ItemsAt, SkipWs, White, ReadsIntegers, Delimited, At, Integral;
    var item, tail := Print(v.items[k], ws), ItemsTail(v, k, ws);
    AtSplit(s, i, item, ws + tail);
    AtSplit(s, i + |item|, ws, tail);
    ItemsTailReads(s, i + |item|, v, k, ws, num);
    PartsIntegral(v, k, exact);
    ValueReads(s, i, v.items[k], ws, num, exact);
    ItemsStep(s, i, num);
    var j := i + |item| + |ws|;
    if k + 1 == |v.items| {
      assert v.items[k..] == [v.items[k]];
    } else {
      ItemsRead(s, j + 1 + |ws|, v, k + 1, ws, num, exact);
      assert v.items[k..] == [v.items[k]] + v.items[k + 1..];
    }
  }

  lemma PartsIntegral(v: Value, k: nat, exact: iset<int>)
    requires Integral(v, exact)
    ensures v.JArr? && k < |v.items| ==> Integral(v.items[k], exact)
    ensures v.JObj? && k < |v.members| ==> Integral(v.members[k].1, exact)
  {
  }

  /** Behind an item: the closing bracket, or a comma and the remaining items. */
  lemma ItemsTailReads(s: string, i: nat, v: Value, k: nat, ws: string, num: Strtod)
    requires v.JArr? && k < |v.items| && White(ws) && At(s, i, ws) && At(s, i + |ws|, ItemsTail(v, k, ws))
    ensures i <= |s| && Delimited(s, i) && SkipWs(s, i) == i + |ws| < |s|
    ensures k + 1 == |v.items| ==> s[i + |ws|] == ']' && ItemsTail(v, k, ws) == "]"
    ensures k + 1 < |v.items| ==>
              && s[i + |ws|] == ','
              && At(s, i + |ws| + 1 + |ws|, PrintItems(v, k + 1, ws))
              && |ItemsTail(v, k, ws)| == 1 + |ws| + |PrintItems(v, k + 1, ws)|
              && ItemsAt(s, i + |ws| + 1, num) == ItemsAt(s, i + |ws| + 1 + |ws|, num)
  {
    hide PrintItems, ItemsAt, At, White, SkipWs, Delimited;
    var c := if k + 1 == |v.items| then ']' else ',';
    var j := i + |ws|;
    if c == ',' {
      AtSplit(s, j, ",", ws + PrintItems(v, k + 1, ws));
      AtSplit(s, j + 1, ws, PrintItems(v, k + 1, ws));
      WhiteThenItems(s, j + 1, v, k + 1, ws, num);
    }
    WhiteThenByte(s, i, ws, c);
    WhiteDelimits(s, i, ws, c);
  }

  // ---------- objects ----------

  lemma MembersStart(v: Value, k: nat, ws: string)
    requires v.JObj? && k < |v.members|
    ensures PrintMembers(v, k, ws) != [] && PrintMembers(v, k, ws)[0] == '"'
  {
    hide Print, MembersTail, EscapeAll;
  }

  /** A member starts with a quote; white space in front of it is skipped. */
  lemma WhiteThenMembers(s: string, i: nat, v: Value, k: nat, ws: string, num: Strtod)
    requires v.JObj? && k < |v.members| && White(ws) && At(s, i, ws) && At(s, i + |ws|, PrintMembers(v, k, ws))
    ensures SkipWs(s, i) == i + |ws| < |s| && s[i + |ws|] == '"'
    ensures MembersAt(s, i, num) == MembersAt(s, i + |ws|, num)
  {
    hide PrintMembers, MembersAt;
    MembersStart(v, k, ws);
    AtChars(s, i + |ws|, PrintMembers(v, k, ws));
    SkipWhite(s, i, ws);
    SameMembers(s, i, i + |ws|, num);
  }

  lemma {:induction false} ObjectReads(s: string, i: nat, v: Value, ws: string, num: Strtod, exact: iset<int>)
    requires v.JObj? && White(ws) && Integral(v, exact) && ReadsIntegers(num, exact) && At(s, i, Print(v, ws))
    ensures i <= |s| && ValueAt(s, i, num) == Some((v, i + |Print(v, ws)|))
    decreases v, 1, |v.members| + 1
  {
    hide PrintMembers, MembersAt, ValueAt, ReadsIntegers, White, SkipWs, At, Integral;
    var body := if v.members == [] then "}" else PrintMembers(v, 0, ws);
    assert Print(v, ws) == "{" + (ws + body);
    AtSplit(s, i, "{", ws + body);
    AtSplit(s, i + 1, ws, body);
    AtChars(s, i, "{");
    AtInside(s, i, "{");
    ObjectStep(s, i, num);
    if v.members == [] {
      WhiteThenByte(s, i + 1, ws, '}');
    } else {
      MembersRead(s, i + 1 + |ws|, v, 0, ws, num, exact);
      WhiteThenMembers(s, i + 1, v, 0, ws, num);
      assert v.members[0..] == v.members;
    }
  }

  /** A printed key with its colon. */
  lemma KeyReads(s: string, i: nat, key: string, ws: string)
    requires White(ws) && At(s, i, Quote(key)) && At(s, i + |Quote(key)|, ws) && At(s, i + |Quote(key)| + |ws|, ":")
    ensures i <= |s| && KeyAt(s, i) == Some((key, i + |Quote(key)| + |ws| + 1))
  {
    hide Quote, White, StringAt, At;
    StringReads(s, i, key);
    SkipHere(s, i);
    WhiteThenByte(s, i + |Quote(key)|, ws, ':');
  }

  lemma {:induction false} MembersRead(s: string, i: nat, v: Value, k: nat, ws: string, num: Strtod, exact: iset<int>)
    requires v.JObj? && k < |v.members| && White(ws) && Integral(v, exact) && ReadsIntegers(num, exact)
    requires At(s, i, PrintMembers(v, k, ws))
    ensures i <= |s| && MembersAt(s, i, num) == Some((v.members[k..], i + |PrintMembers(v, k, ws)|))
    decreases v, 1, |v.members| - k
  {
    hide Print, MembersTail, Quote, ValueAt, KeyAt, MembersAt, MemberAt, SkipWs;
    hide White, ReadsIntegers, Delimited, At, Integral;
    var m, tail := v.members[k], MembersTail(v, k, ws);
    var key, item := Quote(m.0), Print(m.1, ws);
    var i2 := i + |key| + |ws| + 1;
    var i3 := i2 + |ws| + |item|;
    MemberParts(s, i, key, ws, item, ws + tail);
    AtSplit(s, i3, ws, tail);
    KeyReads(s, i, m.0, ws);
    MembersTailReads(s, i3, v, k, ws, num);
    PartsIntegral(v, k, exact);
    ValueReads(s, i2 + |ws|, m.1, ws, num, exact);
    WhiteThenValue(s, i2, ws, m.1, ws, num);
    MembersStep(s, i, num);
    MemberStep(s, m.0, i2, num);
    var j := i3 + |ws|;
    if k + 1 == |v.members| {
      assert v.members[k..] == [m];
    } else {
      MembersRead(s, j + 1 + |ws|, v, k + 1, ws, num, exact);
      assert v.members[k..] == [m] + v.members[k + 1..];
    }
  }

  /** Where the parts of a printed member lie. */
  lemma MemberParts(s: string, i: nat, key: string, ws: string, item: string, rest: string)
    requires At(s, i, key + (ws + (":" + (ws + (item + rest)))))
    ensures At(s, i, key) && At(s, i + |key|, ws) && At(s, i + |key| + |ws|, ":")
    ensures At(s, i + |key| + |ws| + 1, ws) && At(s, i + |key| + |ws| + 1 + |ws|, item)
    ensures At(s, i + |key| + |ws| + 1 + |ws| + |item|, rest)
  {
    hide At;
    AtSplit(s, i, key, ws + (":" + (ws + (item + rest))));
    AtSplit(s, i + |key|, ws, ":" + (ws + (item + rest)));
    AtSplit(s, i + |key| + |ws|, ":", ws + (item + rest));
    AtSplit(s, i + |key| + |ws| + 1, ws, item + rest);
    AtSplit(s, i + |key| + |ws| + 1 + |ws|, item, rest);
  }

  lemma MembersTailReads(s: string, i: nat, v: Value, k: nat, ws: string, num: Strtod)
    requires v.JObj? && k < |v.members| && White(ws) && At(s, i, ws) && At(s, i + |ws|, MembersTail(v, k, ws))
    ensures i <= |s| && Delimited(s, i) && SkipWs(s, i) == i + |ws| < |s|
    ensures k + 1 == |v.members| ==> s[i + |ws|] == '}' && MembersTail(v, k, ws) == "}"
    ensures k + 1 < |v.members| ==>
              && s[i + |ws|] == ','
              && At(s, i + |ws| + 1 + |ws|, PrintMembers(v, k + 1, ws))
              && |MembersTail(v, k, ws)| == 1 + |ws| + |PrintMembers(v, k + 1, ws)|
              && MembersAt(s, i + |ws| + 1, num) == MembersAt(s, i + |ws| + 1 + |ws|, num)
  {
    hide PrintMembers, MembersAt, At, White, SkipWs, Delimited;
    var c := if k + 1 == |v.members| then '}' else ',';
    var j := i + |ws|;
    if c == ',' {
      AtSplit(s, j, ",", ws + PrintMembers(v, k + 1, ws));
      AtSplit(s, j + 1, ws, PrintMembers(v, k + 1, ws));
      WhiteThenMembers(s, j + 1, v, k + 1, ws, num);
    }
    WhiteThenByte(s, i, ws, c);
    WhiteDelimits(s, i, ws, c);
  }

  /** Round trip: the printed form of every value with integer numbers, with any white space
      between its tokens and behind any text, is read back as that value, up to its last byte. */
  lemma {:induction false} JsonRoundTrip(pre: string, v: Value, post: string, ws: string, num: Strtod, exact: iset<int>)
    requires White(ws) && Integral(v, exact) && ReadsIntegers(num, exact) && (v.JNum? ==> Delimited(post, 0))
    ensures ValueAt(pre + Print(v, ws) + post, |pre|, num) == Some((v, |pre| + |Print(v, ws)|))
  {
    hide ValueAt, Print, ReadsIntegers, White, Integral;
    var s := pre + Print(v, ws) + post;
    assert s[|pre|..|pre| + |Print(v, ws)|] == Print(v, ws);
    ValueReads(s, |pre|, v, ws, num, exact);
  }
}
