/** The opening-marker detector: it holds the bytes that may still become a DSML marker and
    releases them as soon as they cannot.  Two spellings are accepted. */
module Detector {
  import opened Text
  import opened Dsml

  // The common typo without the leading bar.
  const MISSING_BAR := "<DSML" + BAR + "tool_calls>"
  const START_TAIL_SIZE := 64

  predicate PrefixOf(s: string, form: string) {
    |s| <= |form| && form[..|s|] == s
  }

  predicate FormMatch(s: string) {
    PrefixOf(s, START) || PrefixOf(s, MISSING_BAR)
  }

  predicate FormComplete(s: string) {
    s == START || s == MISSING_BAR
  }

  datatype Verdict = Hold(tail: string) | Release(out: string, tail: string) | Found

  /** One byte while something is held, or a '<' while nothing is. */
  function DetectByte(tail: string, c: char): Verdict {
    var t := tail + [c];
    if FormComplete(t) then Found
    else if FormMatch(t) then Hold(t)
    else if |t| > 1 && c == '<' then Release(t[..|t| - 1], "<")
    else Release(t, "")
  }

  // A scan of ordinary text: what has been released and what is held, or the form found.
  datatype Scan = Scanning(out: string, tail: string) | Stopped(out: string, form: string)

  function ScanByte(sc: Scan, c: char): Scan {
    if sc.Stopped? then sc
    else if sc.tail == [] && c != '<' then Scanning(sc.out + [c], [])
    else match DetectByte(sc.tail, c)
      case Hold(tail) => Scanning(sc.out, tail)
      case Release(out, tail) => Scanning(sc.out + out, tail)
      case Found => Stopped(sc.out, sc.tail + [c])
  }

  function ScanAll(t: string): Scan {
    if t == [] then Scanning([], []) else ScanByte(ScanAll(t[..|t| - 1]), t[|t| - 1])
  }

  /** No accepted form starts at `i`, nor could one that runs on past the end of `t`. */
  ghost predicate Dead(t: string, i: nat) {
    i <= |t| && !FormMatch(t[i..]) && !At(t, i, START) && !At(t, i, MISSING_BAR)
  }

  ghost predicate Inv(t: string, sc: Scan) {
    && sc.Scanning? && sc.out + sc.tail == t
    && FormMatch(sc.tail) && !FormComplete(sc.tail)
    && forall i :: 0 <= i < |sc.out| ==> Dead(t, i)
  }

  lemma FormShape()
    ensures START[0] == '<' && MISSING_BAR[0] == '<'
    ensures forall k :: 0 < k < |START| ==> START[k] != '<'
    ensures forall k :: 0 < k < |MISSING_BAR| ==> MISSING_BAR[k] != '<'
    ensures FormMatch("<") && !FormComplete("<") && FormMatch("") && !FormComplete("")
    ensures |START| == 22 && |MISSING_BAR| == 19
  {
  }

  /** One form only: a dead position stays dead. */
  lemma DeadForm(t: string, c: char, i: nat, form: string)
    requires i <= |t| && !PrefixOf(t[i..], form) && !At(t, i, form)
    ensures !PrefixOf((t + [c])[i..], form) && !At(t + [c], i, form)
  {
    var u := t + [c];
    assert u[i..] == t[i..] + [c];
    if i + |form| <= |t| {
      assert u[i..i + |form|] == t[i..i + |form|];
    } else if |t| < i + |form| {
      assert form[..|t| - i] != t[i..];
      if i + |form| == |u| {
        assert u[i..i + |form|][..|t| - i] == t[i..];
      }
      if |u| - i <= |form| {
        assert form[..|u| - i][..|t| - i] == form[..|t| - i];
        assert u[i..][..|t| - i] == t[i..];
      }
    }
  }

  lemma StaysDead(t: string, c: char, i: nat)
    requires Dead(t, i)
    ensures Dead(t + [c], i)
  {
    hide At, PrefixOf;
    DeadForm(t, c, i, START);
    DeadForm(t, c, i, MISSING_BAR);
  }

  /** A position that does not hold a '<' starts no form. */
  lemma NoAngleDead(t: string, i: nat)
    requires i < |t| && t[i] != '<'
    ensures Dead(t, i)
  {
    FormShape();
    NotAt(t, i, START, 0);
    NotAt(t, i, MISSING_BAR, 0);
    assert t[i..][0] == t[i];
    PrefixHead(t[i..], START);
    PrefixHead(t[i..], MISSING_BAR);
  }

  lemma PrefixHead(s: string, form: string)
    requires s != [] && form != [] && s[0] != form[0]
    ensures !PrefixOf(s, form)
  {
    assert form[..1][0] == form[0];
    if |s| <= |form| { assert form[..|s|][0] == form[0]; }
  }

  /** A whole suffix that matches no form is a dead position. */
  lemma MismatchDead(t: string, i: nat, sub: string)
    requires i <= |t| && t[i..] == sub && !FormMatch(sub)
    requires sub != [] && FormMatch(sub[..|sub| - 1]) && !FormComplete(sub[..|sub| - 1])
    ensures Dead(t, i)
  {
    MismatchForm(t, i, sub, START);
    MismatchForm(t, i, sub, MISSING_BAR);
    FormShape();
    if |sub| > 1 {
      var held := sub[..|sub| - 1];
      OneForm(held);
    }
  }

  lemma MismatchForm(t: string, i: nat, sub: string, form: string)
    requires i <= |t| && t[i..] == sub && sub != [] && !PrefixOf(sub, form)
    ensures At(t, i, form) ==> |form| < |sub| && PrefixOf(form, sub)
  {
    if At(t, i, form) {
      assert t[i..i + |form|] == sub[..|form|];
      assert sub[..|sub|] == sub && form[..|form|] == form;
    }
  }

  /** No complete form is a prefix of bytes that are themselves a proper prefix of a form. */
  lemma OneForm(held: string)
    requires FormMatch(held) && !FormComplete(held)
    ensures !PrefixOf(START, held) && !PrefixOf(MISSING_BAR, held)
  {
    assert START[1] != MISSING_BAR[1];
    if PrefixOf(held, START) {
      OneFormOf(held, START, MISSING_BAR);
    } else {
      OneFormOf(held, MISSING_BAR, START);
    }
  }

  lemma OneFormOf(held: string, form: string, other: string)
    requires PrefixOf(held, form) && held != form && |other| > 1 && |form| > 1 && form[1] != other[1]
    ensures !PrefixOf(form, held) && !PrefixOf(other, held)
  {
    assert held[..|held|] == held && form[..|form|] == form;
    if |other| <= |held| {
      assert held[1] == form[..|held|][1] == form[1];
      assert held[..|other|][1] == held[1];
    }
  }

  lemma ScanByteInv(t: string, sc: Scan, c: char)
    requires Inv(t, sc)
    ensures ScanByte(sc, c).Scanning? ==> Inv(t + [c], ScanByte(sc, c))
    ensures ScanByte(sc, c).Stopped? ==>
              var s := ScanByte(sc, c);
              s.out + s.form == t + [c] && FormComplete(s.form) && forall i :: 0 <= i < |s.out| ==> Dead(t + [c], i)
  {
    hide Dead, FormMatch, FormComplete, DetectByte;
    FormShape();
    var u := t + [c];
    forall i | 0 <= i < |sc.out| ensures Dead(u, i) { StaysDead(t, c, i); }
    if sc.tail == [] && c != '<' {
      assert u[|t|] == c;
      NoAngleDead(u, |t|);
    } else {
      DetectCases(sc.tail, c);
      var held := sc.tail + [c];
      assert u[|sc.out|..] == held;
      assert held[..|held| - 1] == sc.tail;
      var r := ScanByte(sc, c);
      if !FormMatch(held) && !FormComplete(held) {
        TailAngles(u, sc.out, sc.tail, c);
      }
    }
  }

  lemma DetectCases(tail: string, c: char)
    ensures var t := tail + [c];
            DetectByte(tail, c) ==
            if FormComplete(t) then Found
            else if FormMatch(t) then Hold(t)
            else if |t| > 1 && c == '<' then Release(t[..|t| - 1], "<")
            else Release(t, "")
  {
  }

  /** On a mismatch every held position is dead, and so is the new byte unless it is a '<'. */
  lemma TailAngles(u: string, out: string, tail: string, c: char)
    requires u == out + tail + [c] && FormMatch(tail) && !FormComplete(tail)
    requires !FormMatch(tail + [c])
    ensures forall i :: |out| <= i < |u| - 1 ==> Dead(u, i)
    ensures c != '<' || tail == [] ==> Dead(u, |u| - 1)
  {
    hide Dead, FormComplete, FormMatch;
    FormShape();
    var held := tail + [c];
    assert u[|out|..] == held && held[..|held| - 1] == tail;
    MismatchDead(u, |out|, held);
    TailHasOneAngle(tail);
    forall i | |out| < i < |u| - 1 ensures Dead(u, i) {
      assert u[i] == tail[i - |out|];
      NoAngleDead(u, i);
    }
    if c != '<' {
      assert u[|u| - 1] == c;
      NoAngleDead(u, |u| - 1);
    }
  }

  lemma TailHasOneAngle(tail: string)
    requires FormMatch(tail)
    ensures forall k :: 0 < k < |tail| ==> tail[k] != '<'
  {
    FormShape();
    if PrefixOf(tail, START) {
      assert forall k :: 0 < k < |tail| ==> tail[k] == START[..|tail|][k] == START[k];
    } else {
      assert forall k :: 0 < k < |tail| ==> tail[k] == MISSING_BAR[..|tail|][k] == MISSING_BAR[k];
    }
  }

  ghost predicate Occurs(t: string, i: nat) {
    At(t, i, START) || At(t, i, MISSING_BAR)
  }

  /** The detector is an exact substring search that loses no byte.  While it scans, released
      plus held bytes are the input, no form occurs in it, and what is held is the longest
      suffix that may still become one.  When it stops, it has released exactly the bytes in
      front of the first occurrence. */
  lemma {:induction false} ScanExact(t: string)
    ensures var sc := ScanAll(t);
            sc.Scanning? ==>
              && sc.out + sc.tail == t
              && (forall i :: 0 <= i ==> !Occurs(t, i))
              && (forall i :: 0 <= i < |sc.out| ==> !FormMatch(t[i..]))
              && FormMatch(sc.tail) && !FormComplete(sc.tail) && |sc.tail| < 22
    ensures var sc := ScanAll(t);
            sc.Stopped? ==>
              && PrefixOf(sc.out + sc.form, t) && FormComplete(sc.form)
              && forall i :: 0 <= i < |sc.out| ==> !Occurs(t, i)
    decreases |t|
  {
    hide FormMatch, FormComplete;
    ScanInv(t);
    var sc := ScanAll(t);
    if sc.Scanning? {
      FormShape();
      HeldShort(sc.tail);
      forall i | 0 <= i < |sc.out| ensures !FormMatch(t[i..]) { assert Dead(t, i); }
      forall i: nat | 0 <= i ensures !Occurs(t, i) {
        if i < |sc.out| {
          assert Dead(t, i);
        } else if i < |t| {
          LateNotOccurs(t, sc.out, sc.tail, i);
        }
      }
    }
  }

  lemma HeldShort(tail: string)
    requires FormMatch(tail) && !FormComplete(tail)
    ensures |tail| < 22
  {
    FormShape();
    assert START[..|START|] == START;
  }

  lemma AtIsPrefix(t: string, i: nat, form: string)
    requires i <= |t|
    ensures At(t, i, form) == PrefixOf(form, t[i..])
  {
    if i + |form| <= |t| { assert t[i..i + |form|] == t[i..][..|form|]; }
  }

  /** A form occurring at or after the held bytes would have been found. */
  lemma LateNotOccurs(t: string, out: string, tail: string, i: nat)
    requires t == out + tail && FormMatch(tail) && !FormComplete(tail) && |out| <= i < |t|
    ensures !Occurs(t, i)
  {
    hide FormComplete, FormMatch;
    FormShape();
    if i == |out| {
      OneForm(tail);
      assert t[i..] == tail;
      AtIsPrefix(t, i, START);
      AtIsPrefix(t, i, MISSING_BAR);
    } else {
      TailHasOneAngle(tail);
      assert t[i] == tail[i - |out|];
      NoAngleDead(t, i);
    }
  }

  ghost predicate StoppedInv(t: string, sc: Scan) {
    && sc.Stopped? && PrefixOf(sc.out + sc.form, t) && FormComplete(sc.form)
    && forall i :: 0 <= i < |sc.out| ==> !Occurs(t, i)
  }

  lemma {:induction false} ScanInv(t: string)
    ensures Inv(t, ScanAll(t)) || StoppedInv(t, ScanAll(t))
    decreases |t|
  {
    hide FormMatch, FormComplete, ScanByte;
    FormShape();
    if t != [] {
      var u, c := t[..|t| - 1], t[|t| - 1];
      assert u + [c] == t;
      ScanInv(u);
      var sc := ScanAll(u);
      if sc.Scanning? {
        ScanByteInv(u, sc, c);
        var r := ScanByte(sc, c);
        if r.Stopped? {
          forall i | 0 <= i < |r.out| ensures !Occurs(t, i) { assert Dead(t, i); }
        }
      } else {
        StoppedStays(u, c, sc);
      }
    }
  }

  lemma StoppedStays(u: string, c: char, sc: Scan)
    requires StoppedInv(u, sc)
    ensures ScanByte(sc, c) == sc && StoppedInv(u + [c], sc)
  {
    hide FormComplete, FormMatch;
    var t := u + [c];
    var n := |sc.out + sc.form|;
    assert t[..n] == u[..n];
    forall i | 0 <= i < |sc.out| ensures !Occurs(t, i) {
      InPrefix(t, u, sc.out, sc.form, i);
    }
  }

  /** Inside the bytes up to the first form's end there is no earlier form: it would overlap
      the one found, whose only '<' is its first byte. */
  lemma InPrefix(t: string, u: string, out: string, form: string, i: nat)
    requires FormComplete(form) && PrefixOf(out + form, u) && PrefixOf(u, t) && i < |out|
    requires !Occurs(u, i)
    ensures !Occurs(t, i)
  {
    hide FormMatch;
    FormShape();
    var n := |out|;
    assert u[..|out + form|][n] == form[0];
    assert t[..|u|][n] == u[n];
    NotPast(t, u, n, i, START);
    NotPast(t, u, n, i, MISSING_BAR);
  }

  lemma NotPast(t: string, u: string, n: nat, i: nat, form: string)
    requires PrefixOf(u, t) && i < n < |u| && t[n] == '<' && !At(u, i, form)
    requires forall k :: 0 < k < |form| ==> form[k] != '<'
    ensures !At(t, i, form)
  {
    if i + |form| <= n {
      assert t[..|u|][i..i + |form|] == t[i..i + |form|];
    } else {
      assert form[n - i] != '<';
      if i + |form| <= |t| { NotAt(t, i, form, n - i); }
    }
  }
}
